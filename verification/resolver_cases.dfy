/**
 The expressions of ExpressionResolverTest.java, with the values the model gives
 them. The test compares truncations to int; the lemmas state the exact value,
 whose truncation toward zero is the integer the test expects.

 Each text is cut, before an operator or bracket, into pieces of a few words;
 each piece is read as a layout (LayoutRoundTrip), the pieces are put back
 together by ScanAppend, and the lexemes are the printing of a tree whose
 value the general lemmas about expr give.
 */
module ResolverCases {
  import opened Errors
  import opened Lexemes
  import opened Arith
  import opened Tokenizer
  import opened TokenizerLaws
  import opened Syntax
  import opened EvaluatorLaws
  import opened Layout
  import opened Resolver
  import opened ResolverPieces

  /**
   Two pieces that tokenize, the second starting with a space, bracket or
   operator, tokenize together into the lexemes l of the two in order.
   */
  lemma Glue2(whole: string, a: string, b: string, l: seq<Lexeme>, la: seq<Lexeme>, lb: seq<Lexeme>, vars: Variables)
    requires whole == a + b && Separates(b)
    requires Scan(a, vars) == Success(la) && Scan(b, vars) == Success(lb)
    requires l == la + lb
    ensures Scan(whole, vars) == Success(l)
  {
    ScanAppend(a, b, vars);
  }

  /** Glue2 for three pieces. */
  lemma Glue3(whole: string, a: string, b: string, c: string, l: seq<Lexeme>,
              la: seq<Lexeme>, lb: seq<Lexeme>, lc: seq<Lexeme>, vars: Variables)
    requires whole == a + b + c && Separates(b) && Separates(c)
    requires Scan(a, vars) == Success(la) && Scan(b, vars) == Success(lb) && Scan(c, vars) == Success(lc)
    requires l == la + lb + lc
    ensures Scan(whole, vars) == Success(l)
  {
    ScanAppend(a + b, c, vars);
    ScanAppend(a, b, vars);
  }

  // 12 + 34 * 9 - 100 + (34 - 78) / 81

  lemma MixedPrecedenceCut()
    ensures "12 + 34 * 9 - 100 + (34 - 78) / 81" == "12 + 34 * 9 " + "- 100 + (34 " + "- 78) / 81"
    ensures Separates("- 100 + (34 ") && Separates("- 78) / 81")
  {
  }

  lemma MixedPrecedenceLexemes()
    ensures [Number(12.0), Plus, Number(34.0), Mult, Number(9.0), Minus, Number(100.0), Plus, LeftBracket,
             Number(34.0), Minus, Number(78.0), RightBracket, Div, Number(81.0)]
            == [Number(12.0), Plus, Number(34.0), Mult, Number(9.0)]
               + [Minus, Number(100.0), Plus, LeftBracket, Number(34.0)]
               + [Minus, Number(78.0), RightBracket, Div, Number(81.0)]
  {
  }

  lemma MixedPrecedenceTokens()
    ensures Scan("12 + 34 * 9 - 100 + (34 - 78) / 81", TestVariables()) ==
            Success([Number(12.0), Plus, Number(34.0), Mult, Number(9.0), Minus, Number(100.0), Plus, LeftBracket,
                     Number(34.0), Minus, Number(78.0), RightBracket, Div, Number(81.0)])
  {
    OpeningPiece();
    MixedPrecedencePiece2();
    MixedPrecedencePiece3();
    MixedPrecedenceCut();
    MixedPrecedenceLexemes();
    Glue3("12 + 34 * 9 - 100 + (34 - 78) / 81", "12 + 34 * 9 ", "- 100 + (34 ", "- 78) / 81",
          [Number(12.0), Plus, Number(34.0), Mult, Number(9.0), Minus, Number(100.0), Plus, LeftBracket,
           Number(34.0), Minus, Number(78.0), RightBracket, Div, Number(81.0)],
          [Number(12.0), Plus, Number(34.0), Mult, Number(9.0)],
          [Minus, Number(100.0), Plus, LeftBracket, Number(34.0)],
          [Minus, Number(78.0), RightBracket, Div, Number(81.0)], TestVariables());
  }

  /** 12 + 34 * 9 - 100, a sum that needs no brackets on the left of '+'. */
  lemma MixedPrecedenceLeft() returns (t: Tree)
    ensures Print(t, 0) == [Number(12.0), Plus, Number(34.0), Mult, Number(9.0), Minus, Number(100.0)]
    ensures Eval(t) == Finite(218.0)
  {
    t := Bin(SubOp, Bin(AddOp, Lit(12.0), Bin(MulOp, Lit(34.0), Lit(9.0))), Lit(100.0));
  }

  /** (34 - 78) / 81, a product that needs no brackets on the right of '+'. */
  lemma MixedPrecedenceRight() returns (t: Tree)
    ensures Print(t, 1) == [LeftBracket, Number(34.0), Minus, Number(78.0), RightBracket, Div, Number(81.0)]
    ensures Eval(t) == Finite(-44.0 / 81.0)
  {
    t := Bin(DivOp, Group(Bin(SubOp, Lit(34.0), Lit(78.0))), Lit(81.0));
  }

  /** The tree the first test expression denotes: (12 + 34 * 9 - 100) + (34 - 78) / 81. */
  lemma MixedPrecedenceTree() returns (t: Tree)
    ensures Print(t, 0) == [Number(12.0), Plus, Number(34.0), Mult, Number(9.0), Minus, Number(100.0), Plus, LeftBracket,
                            Number(34.0), Minus, Number(78.0), RightBracket, Div, Number(81.0)]
    ensures Eval(t) == Finite(218.0 - 44.0 / 81.0)
  {
    var left := MixedPrecedenceLeft();
    var right := MixedPrecedenceRight();
    t := Bin(AddOp, left, right);
    assert Print(t, 0) == Print(left, 0) + [Plus] + Print(right, 1);
  }

  /** The first test expression: about 217. */
  lemma MixedPrecedence()
    ensures Evaluate("12 + 34 * 9 - 100 + (34 - 78) / 81", TestVariables()) == Success(Finite(218.0 - 44.0 / 81.0))
    ensures ResolveExpression("12 + 34 * 9 - 100 + (34 - 78) / 81", TestVariables()) == Finite(218.0 - 44.0 / 81.0)
  {
    MixedPrecedenceTokens();
    var t := MixedPrecedenceTree();
    ScannedTreeResolves("12 + 34 * 9 - 100 + (34 - 78) / 81", t, TestVariables());
  }

  // "" and "Hello!"

  lemma EmptyExpression()
    ensures Evaluate("", TestVariables()) == Success(Finite(0.0))
    ensures ResolveExpression("", TestVariables()) == Finite(0.0)
  {
    BlankEvaluatesToZero("", TestVariables());
  }

  /** An upper-case letter is not a variable: tokenizing fails at once. */
  lemma Greeting()
    ensures Evaluate("Hello!", TestVariables()) == Failure(UnexpectedSymbol('H'))
    ensures ResolveExpression("Hello!", TestVariables()) == Finite(0.0)
  {
  }

  // 12 + 34 * 9 - 128 + )34 - 78( / 81

  lemma MisplacedBracketsCut()
    ensures "12 + 34 * 9 - 128 + )34 - 78( / 81" == "12 + 34 * 9 " + "- 128 + )34 " + "- 78( / 81"
    ensures Separates("- 128 + )34 ") && Separates("- 78( / 81")
  {
  }

  lemma MisplacedBracketsLexemes()
    ensures [Number(12.0), Plus, Number(34.0), Mult, Number(9.0), Minus, Number(128.0), Plus, RightBracket,
             Number(34.0), Minus, Number(78.0), LeftBracket, Div, Number(81.0)]
            == [Number(12.0), Plus, Number(34.0), Mult, Number(9.0)]
               + [Minus, Number(128.0), Plus, RightBracket, Number(34.0)]
               + [Minus, Number(78.0), LeftBracket, Div, Number(81.0)]
  {
  }

  lemma MisplacedBracketsTokens()
    ensures Scan("12 + 34 * 9 - 128 + )34 - 78( / 81", TestVariables()) ==
            Success([Number(12.0), Plus, Number(34.0), Mult, Number(9.0), Minus, Number(128.0), Plus, RightBracket,
                     Number(34.0), Minus, Number(78.0), LeftBracket, Div, Number(81.0)])
  {
    OpeningPiece();
    MisplacedBracketsPiece2();
    MisplacedBracketsPiece3();
    MisplacedBracketsCut();
    MisplacedBracketsLexemes();
    Glue3("12 + 34 * 9 - 128 + )34 - 78( / 81", "12 + 34 * 9 ", "- 128 + )34 ", "- 78( / 81",
          [Number(12.0), Plus, Number(34.0), Mult, Number(9.0), Minus, Number(128.0), Plus, RightBracket,
           Number(34.0), Minus, Number(78.0), LeftBracket, Div, Number(81.0)],
          [Number(12.0), Plus, Number(34.0), Mult, Number(9.0)],
          [Minus, Number(128.0), Plus, RightBracket, Number(34.0)],
          [Minus, Number(78.0), LeftBracket, Div, Number(81.0)], TestVariables());
  }

  /** The lexemes of the fourth test expression: a complete sum, then '+' followed by ')'. */
  lemma MisplacedBracketsShape() returns (t: Tree, rest: seq<Lexeme>)
    ensures EndsWithEoe([Plus, RightBracket] + rest)
    ensures [Number(12.0), Plus, Number(34.0), Mult, Number(9.0), Minus, Number(128.0), Plus, RightBracket,
             Number(34.0), Minus, Number(78.0), LeftBracket, Div, Number(81.0)] + [Eoe]
            == Print(t, 0) + ([Plus, RightBracket] + rest)
  {
    t := Bin(SubOp, Bin(AddOp, Lit(12.0), Bin(MulOp, Lit(34.0), Lit(9.0))), Lit(128.0));
    rest := [Number(34.0), Minus, Number(78.0), LeftBracket, Div, Number(81.0), Eoe];
  }

  /** The fourth test expression: brackets the wrong way round tokenize, but expr rejects them. */
  lemma MisplacedBrackets()
    ensures Evaluate("12 + 34 * 9 - 128 + )34 - 78( / 81", TestVariables()) == Failure(ExpressionCannotBeResolved)
    ensures ResolveExpression("12 + 34 * 9 - 128 + )34 - 78( / 81", TestVariables()) == Finite(0.0)
  {
    MisplacedBracketsTokens();
    var t, rest := MisplacedBracketsShape();
    MissingOperandFails(t, Plus, RightBracket, rest);
  }

  // "          2 + 3"

  lemma LeadingSpacesCut()
    ensures "          2 + 3" == Spaces(10) + "2 + 3"
  {
  }

  lemma SumTree() returns (t: Tree)
    ensures Print(t, 0) == [Number(2.0), Plus, Number(3.0)] && Eval(t) == Finite(5.0)
  {
    t := Bin(AddOp, Lit(2.0), Lit(3.0));
  }

  /** The fifth test expression: spaces in front are skipped. */
  lemma LeadingSpaces()
    ensures Evaluate("          2 + 3", TestVariables()) == Success(Finite(5.0))
    ensures ResolveExpression("          2 + 3", TestVariables()) == Finite(5.0)
  {
    SumPiece();
    LeadingSpacesCut();
    LeadingSpacesIgnored(Spaces(10), "2 + 3", TestVariables());
    var t := SumTree();
    ScannedTreeResolves("          2 + 3", t, TestVariables());
  }

  // 126  + 100                - 923 / 4

  lemma WideSpacingGapText()
    ensures "                - 923 / 4" == Spaces(16) + "- 923 / 4"
  {
  }

  /** The sixteen spaces in the middle are skipped. */
  lemma WideSpacingGap()
    ensures Scan("                - 923 / 4", TestVariables()) == Success([Minus, Number(923.0), Div, Number(4.0)])
  {
    WideSpacingPiece2();
    WideSpacingGapText();
    LeadingSpacesIgnored(Spaces(16), "- 923 / 4", TestVariables());
  }

  lemma WideSpacingCut()
    ensures "126  + 100                - 923 / 4" == "126  + 100" + "                - 923 / 4"
    ensures Separates("                - 923 / 4")
  {
  }

  lemma WideSpacingLexemes()
    ensures [Number(126.0), Plus, Number(100.0), Minus, Number(923.0), Div, Number(4.0)]
            == [Number(126.0), Plus, Number(100.0)] + [Minus, Number(923.0), Div, Number(4.0)]
  {
  }

  lemma WideSpacingTree() returns (t: Tree)
    ensures Print(t, 0) == [Number(126.0), Plus, Number(100.0), Minus, Number(923.0), Div, Number(4.0)]
    ensures Eval(t) == Finite(-4.75)
  {
    t := Bin(SubOp, Bin(AddOp, Lit(126.0), Lit(100.0)), Bin(DivOp, Lit(923.0), Lit(4.0)));
  }

  /** The sixth test expression: about -4. */
  lemma WideSpacing()
    ensures Evaluate("126  + 100                - 923 / 4", TestVariables()) == Success(Finite(-4.75))
    ensures ResolveExpression("126  + 100                - 923 / 4", TestVariables()) == Finite(-4.75)
  {
    WideSpacingPiece1();
    WideSpacingGap();
    WideSpacingCut();
    WideSpacingLexemes();
    Glue2("126  + 100                - 923 / 4", "126  + 100", "                - 923 / 4",
          [Number(126.0), Plus, Number(100.0), Minus, Number(923.0), Div, Number(4.0)],
          [Number(126.0), Plus, Number(100.0)], [Minus, Number(923.0), Div, Number(4.0)], TestVariables());
    var t := WideSpacingTree();
    ScannedTreeResolves("126  + 100                - 923 / 4", t, TestVariables());
  }

  // x - 46 * (y + 4) / 2

  lemma WithVariablesCut()
    ensures "x - 46 * (y + 4) / 2" == "x - 46 " + "* (y + 4" + ") / 2"
    ensures Separates("* (y + 4") && Separates(") / 2")
  {
  }

  lemma WithVariablesLexemes()
    ensures [Number(10.5), Minus, Number(46.0), Mult, LeftBracket, Number(20.1), Plus, Number(4.0), RightBracket, Div, Number(2.0)]
            == [Number(10.5), Minus, Number(46.0)] + [Mult, LeftBracket, Number(20.1), Plus, Number(4.0)]
               + [RightBracket, Div, Number(2.0)]
  {
  }

  lemma WithVariablesTokens()
    ensures Scan("x - 46 * (y + 4) / 2", TestVariables()) ==
            Success([Number(10.5), Minus, Number(46.0), Mult, LeftBracket, Number(20.1), Plus, Number(4.0), RightBracket, Div, Number(2.0)])
  {
    WithVariablesPiece1();
    WithVariablesPiece2();
    WithVariablesPiece3();
    WithVariablesCut();
    WithVariablesLexemes();
    Glue3("x - 46 * (y + 4) / 2", "x - 46 ", "* (y + 4", ") / 2",
          [Number(10.5), Minus, Number(46.0), Mult, LeftBracket, Number(20.1), Plus, Number(4.0), RightBracket, Div, Number(2.0)],
          [Number(10.5), Minus, Number(46.0)],
          [Mult, LeftBracket, Number(20.1), Plus, Number(4.0)],
          [RightBracket, Div, Number(2.0)], TestVariables());
  }

  /** The tree the seventh test expression denotes once x and y are replaced: 10.5 - 46 * (20.1 + 4) / 2. */
  lemma WithVariablesTree() returns (t: Tree)
    ensures Print(t, 0) == [Number(10.5), Minus, Number(46.0), Mult, LeftBracket, Number(20.1), Plus, Number(4.0), RightBracket, Div, Number(2.0)]
    ensures Eval(t) == Finite(-543.8)
  {
    t := Bin(SubOp, Lit(10.5), Bin(DivOp, Bin(MulOp, Lit(46.0), Group(Bin(AddOp, Lit(20.1), Lit(4.0)))), Lit(2.0)));
  }

  /** The seventh test expression, with x = 10.5 and y = 20.1: about -543. */
  lemma WithVariables()
    ensures Evaluate("x - 46 * (y + 4) / 2", TestVariables()) == Success(Finite(-543.8))
    ensures ResolveExpression("x - 46 * (y + 4) / 2", TestVariables()) == Finite(-543.8)
  {
    WithVariablesTokens();
    var t := WithVariablesTree();
    ScannedTreeResolves("x - 46 * (y + 4) / 2", t, TestVariables());
  }

  // 2 + 3 ) 4, and xy

  lemma StrayBracketShape(t: Tree)
    requires Print(t, 0) == [Number(2.0), Plus, Number(3.0)]
    ensures [Number(2.0), Plus, Number(3.0), RightBracket, Number(4.0)] == Print(t, 0) + [RightBracket] + [Number(4.0)]
  {
  }

  /** Nothing after a stray ')' is read. */
  lemma StrayBracket()
    ensures Evaluate("2 + 3 ) 4", TestVariables()) == Success(Finite(5.0))
    ensures ResolveExpression("2 + 3 ) 4", TestVariables()) == Finite(5.0)
  {
    StrayBracketPiece();
    var t := SumTree();
    StrayBracketShape(t);
    TrailingAfterBracketIgnored("2 + 3 ) 4", t, [Number(4.0)], TestVariables());
  }

  /** "xy" is two variables, hence two numbers in a row. */
  lemma JoinedVariables()
    ensures Evaluate("xy", TestVariables()) == Failure(ExpressionCannotBeResolved)
    ensures ResolveExpression("xy", TestVariables()) == Finite(0.0)
  {
    AdjacentVariablesRejected('x', 'y', TestVariables());
  }
}
