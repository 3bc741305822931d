/**
 The test expressions cut into pieces of a few words, each read as a layout
 (Layout.LayoutRoundTrip): a piece's text is printed from its words, so its
 lexemes are the words' lexemes.
 */
module ResolverPieces {
  import opened Errors
  import opened Lexemes
  import opened Tokenizer
  import opened Layout

  /** The variables of ExpressionResolverTest.java. */
  function TestVariables(): (vars: Variables)
    ensures "x" in vars && vars["x"] == 10.5
    ensures "y" in vars && vars["y"] == 20.1
  {
    map["x" := 10.5, "y" := 20.1]
  }

  function OpeningWords(): seq<Word> {
    [Token(Number(12.0), 1), Token(Plus, 1), Token(Number(34.0), 1), Token(Mult, 1), Token(Number(9.0), 1)]
  }

  lemma OpeningPieceText()
    ensures Text(OpeningWords(), 0) == "12 + 34 * 9 "
  {
    var ws := OpeningWords();
    assert Text(ws, 4) == "9 ";
    assert Text(ws, 3) == "* 9 ";
    assert Text(ws, 2) == "34 * 9 ";
    assert Text(ws, 1) == "+ 34 * 9 ";
  }

  lemma OpeningPieceWords()
    ensures Writes(OpeningWords(), TestVariables())
    ensures WordLexemes(OpeningWords(), TestVariables(), 0) == [Number(12.0), Plus, Number(34.0), Mult, Number(9.0)]
  {
  }

  lemma OpeningPiece()
    ensures Scan("12 + 34 * 9 ", TestVariables()) == Success([Number(12.0), Plus, Number(34.0), Mult, Number(9.0)])
  {
    OpeningPieceText();
    OpeningPieceWords();
    LayoutRoundTrip(OpeningWords(), TestVariables(), 0);
  }

  function MixedPrecedenceWords2(): seq<Word> {
    [Token(Minus, 1), Token(Number(100.0), 1), Token(Plus, 1), Token(LeftBracket, 0), Token(Number(34.0), 1)]
  }

  lemma MixedPrecedencePiece2Text()
    ensures Text(MixedPrecedenceWords2(), 0) == "- 100 + (34 "
  {
    var ws := MixedPrecedenceWords2();
    assert Text(ws, 4) == "34 ";
    assert Text(ws, 3) == "(34 ";
    assert Text(ws, 2) == "+ (34 ";
    assert Text(ws, 1) == "100 + (34 ";
  }

  lemma MixedPrecedencePiece2Words()
    ensures Writes(MixedPrecedenceWords2(), TestVariables())
    ensures WordLexemes(MixedPrecedenceWords2(), TestVariables(), 0) == [Minus, Number(100.0), Plus, LeftBracket, Number(34.0)]
  {
  }

  lemma MixedPrecedencePiece2()
    ensures Scan("- 100 + (34 ", TestVariables()) == Success([Minus, Number(100.0), Plus, LeftBracket, Number(34.0)])
  {
    MixedPrecedencePiece2Text();
    MixedPrecedencePiece2Words();
    LayoutRoundTrip(MixedPrecedenceWords2(), TestVariables(), 0);
  }

  function MixedPrecedenceWords3(): seq<Word> {
    [Token(Minus, 1), Token(Number(78.0), 0), Token(RightBracket, 1), Token(Div, 1), Token(Number(81.0), 0)]
  }

  lemma MixedPrecedencePiece3Text()
    ensures Text(MixedPrecedenceWords3(), 0) == "- 78) / 81"
  {
    var ws := MixedPrecedenceWords3();
    assert Text(ws, 4) == "81";
    assert Text(ws, 3) == "/ 81";
    assert Text(ws, 2) == ") / 81";
    assert Text(ws, 1) == "78) / 81";
  }

  lemma MixedPrecedencePiece3Words()
    ensures Writes(MixedPrecedenceWords3(), TestVariables())
    ensures WordLexemes(MixedPrecedenceWords3(), TestVariables(), 0) == [Minus, Number(78.0), RightBracket, Div, Number(81.0)]
  {
  }

  lemma MixedPrecedencePiece3()
    ensures Scan("- 78) / 81", TestVariables()) == Success([Minus, Number(78.0), RightBracket, Div, Number(81.0)])
  {
    MixedPrecedencePiece3Text();
    MixedPrecedencePiece3Words();
    LayoutRoundTrip(MixedPrecedenceWords3(), TestVariables(), 0);
  }

  function MisplacedBracketsWords2(): seq<Word> {
    [Token(Minus, 1), Token(Number(128.0), 1), Token(Plus, 1), Token(RightBracket, 0), Token(Number(34.0), 1)]
  }

  lemma MisplacedBracketsPiece2Text()
    ensures Text(MisplacedBracketsWords2(), 0) == "- 128 + )34 "
  {
    var ws := MisplacedBracketsWords2();
    assert Text(ws, 4) == "34 ";
    assert Text(ws, 3) == ")34 ";
    assert Text(ws, 2) == "+ )34 ";
    assert Text(ws, 1) == "128 + )34 ";
  }

  lemma MisplacedBracketsPiece2Words()
    ensures Writes(MisplacedBracketsWords2(), TestVariables())
    ensures WordLexemes(MisplacedBracketsWords2(), TestVariables(), 0) == [Minus, Number(128.0), Plus, RightBracket, Number(34.0)]
  {
  }

  lemma MisplacedBracketsPiece2()
    ensures Scan("- 128 + )34 ", TestVariables()) == Success([Minus, Number(128.0), Plus, RightBracket, Number(34.0)])
  {
    MisplacedBracketsPiece2Text();
    MisplacedBracketsPiece2Words();
    LayoutRoundTrip(MisplacedBracketsWords2(), TestVariables(), 0);
  }

  function MisplacedBracketsWords3(): seq<Word> {
    [Token(Minus, 1), Token(Number(78.0), 0), Token(LeftBracket, 1), Token(Div, 1), Token(Number(81.0), 0)]
  }

  lemma MisplacedBracketsPiece3Text()
    ensures Text(MisplacedBracketsWords3(), 0) == "- 78( / 81"
  {
    var ws := MisplacedBracketsWords3();
    assert Text(ws, 4) == "81";
    assert Text(ws, 3) == "/ 81";
    assert Text(ws, 2) == "( / 81";
    assert Text(ws, 1) == "78( / 81";
  }

  lemma MisplacedBracketsPiece3Words()
    ensures Writes(MisplacedBracketsWords3(), TestVariables())
    ensures WordLexemes(MisplacedBracketsWords3(), TestVariables(), 0) == [Minus, Number(78.0), LeftBracket, Div, Number(81.0)]
  {
  }

  lemma MisplacedBracketsPiece3()
    ensures Scan("- 78( / 81", TestVariables()) == Success([Minus, Number(78.0), LeftBracket, Div, Number(81.0)])
  {
    MisplacedBracketsPiece3Text();
    MisplacedBracketsPiece3Words();
    LayoutRoundTrip(MisplacedBracketsWords3(), TestVariables(), 0);
  }

  function SumWords(): seq<Word> {
    [Token(Number(2.0), 1), Token(Plus, 1), Token(Number(3.0), 0)]
  }

  lemma SumPieceText()
    ensures Text(SumWords(), 0) == "2 + 3"
  {
    var ws := SumWords();
    assert Text(ws, 2) == "3";
    assert Text(ws, 1) == "+ 3";
  }

  lemma SumPieceWords()
    ensures Writes(SumWords(), TestVariables())
    ensures WordLexemes(SumWords(), TestVariables(), 0) == [Number(2.0), Plus, Number(3.0)]
  {
  }

  lemma SumPiece()
    ensures Scan("2 + 3", TestVariables()) == Success([Number(2.0), Plus, Number(3.0)])
  {
    SumPieceText();
    SumPieceWords();
    LayoutRoundTrip(SumWords(), TestVariables(), 0);
  }

  function WideSpacingWords1(): seq<Word> {
    [Token(Number(126.0), 2), Token(Plus, 1), Token(Number(100.0), 0)]
  }

  lemma WideSpacingPiece1Text()
    ensures Text(WideSpacingWords1(), 0) == "126  + 100"
  {
    var ws := WideSpacingWords1();
    assert Text(ws, 2) == "100";
    assert Text(ws, 1) == "+ 100";
  }

  lemma WideSpacingPiece1Words()
    ensures Writes(WideSpacingWords1(), TestVariables())
    ensures WordLexemes(WideSpacingWords1(), TestVariables(), 0) == [Number(126.0), Plus, Number(100.0)]
  {
  }

  lemma WideSpacingPiece1()
    ensures Scan("126  + 100", TestVariables()) == Success([Number(126.0), Plus, Number(100.0)])
  {
    WideSpacingPiece1Text();
    WideSpacingPiece1Words();
    LayoutRoundTrip(WideSpacingWords1(), TestVariables(), 0);
  }

  function WideSpacingWords2(): seq<Word> {
    [Token(Minus, 1), Token(Number(923.0), 1), Token(Div, 1), Token(Number(4.0), 0)]
  }

  lemma WideSpacingPiece2Text()
    ensures Text(WideSpacingWords2(), 0) == "- 923 / 4"
  {
    var ws := WideSpacingWords2();
    assert Text(ws, 3) == "4";
    assert Text(ws, 2) == "/ 4";
    assert Text(ws, 1) == "923 / 4";
  }

  lemma WideSpacingPiece2Words()
    ensures Writes(WideSpacingWords2(), TestVariables())
    ensures WordLexemes(WideSpacingWords2(), TestVariables(), 0) == [Minus, Number(923.0), Div, Number(4.0)]
  {
  }

  lemma WideSpacingPiece2()
    ensures Scan("- 923 / 4", TestVariables()) == Success([Minus, Number(923.0), Div, Number(4.0)])
  {
    WideSpacingPiece2Text();
    WideSpacingPiece2Words();
    LayoutRoundTrip(WideSpacingWords2(), TestVariables(), 0);
  }

  function WithVariablesWords1(): seq<Word> {
    [Name("x", 1), Token(Minus, 1), Token(Number(46.0), 1)]
  }

  lemma WithVariablesPiece1Text()
    ensures Text(WithVariablesWords1(), 0) == "x - 46 "
  {
    var ws := WithVariablesWords1();
    assert Text(ws, 2) == "46 ";
    assert Text(ws, 1) == "- 46 ";
  }

  lemma WithVariablesPiece1Words()
    ensures Writes(WithVariablesWords1(), TestVariables())
    ensures WordLexemes(WithVariablesWords1(), TestVariables(), 0) == [Number(10.5), Minus, Number(46.0)]
  {
  }

  lemma WithVariablesPiece1()
    ensures Scan("x - 46 ", TestVariables()) == Success([Number(10.5), Minus, Number(46.0)])
  {
    WithVariablesPiece1Text();
    WithVariablesPiece1Words();
    LayoutRoundTrip(WithVariablesWords1(), TestVariables(), 0);
  }

  function WithVariablesWords2(): seq<Word> {
    [Token(Mult, 1), Token(LeftBracket, 0), Name("y", 1), Token(Plus, 1), Token(Number(4.0), 0)]
  }

  lemma WithVariablesPiece2Text()
    ensures Text(WithVariablesWords2(), 0) == "* (y + 4"
  {
    var ws := WithVariablesWords2();
    assert Text(ws, 4) == "4";
    assert Text(ws, 3) == "+ 4";
    assert Text(ws, 2) == "y + 4";
    assert Text(ws, 1) == "(y + 4";
  }

  lemma WithVariablesPiece2Words()
    ensures Writes(WithVariablesWords2(), TestVariables())
    ensures WordLexemes(WithVariablesWords2(), TestVariables(), 0) == [Mult, LeftBracket, Number(20.1), Plus, Number(4.0)]
  {
  }

  lemma WithVariablesPiece2()
    ensures Scan("* (y + 4", TestVariables()) == Success([Mult, LeftBracket, Number(20.1), Plus, Number(4.0)])
  {
    WithVariablesPiece2Text();
    WithVariablesPiece2Words();
    LayoutRoundTrip(WithVariablesWords2(), TestVariables(), 0);
  }

  function WithVariablesWords3(): seq<Word> {
    [Token(RightBracket, 1), Token(Div, 1), Token(Number(2.0), 0)]
  }

  lemma WithVariablesPiece3Text()
    ensures Text(WithVariablesWords3(), 0) == ") / 2"
  {
    var ws := WithVariablesWords3();
    assert Text(ws, 2) == "2";
    assert Text(ws, 1) == "/ 2";
  }

  lemma WithVariablesPiece3Words()
    ensures Writes(WithVariablesWords3(), TestVariables())
    ensures WordLexemes(WithVariablesWords3(), TestVariables(), 0) == [RightBracket, Div, Number(2.0)]
  {
  }

  lemma WithVariablesPiece3()
    ensures Scan(") / 2", TestVariables()) == Success([RightBracket, Div, Number(2.0)])
  {
    WithVariablesPiece3Text();
    WithVariablesPiece3Words();
    LayoutRoundTrip(WithVariablesWords3(), TestVariables(), 0);
  }

  function StrayBracketWords(): seq<Word> {
    [Token(Number(2.0), 1), Token(Plus, 1), Token(Number(3.0), 1), Token(RightBracket, 1), Token(Number(4.0), 0)]
  }

  lemma StrayBracketPieceText()
    ensures Text(StrayBracketWords(), 0) == "2 + 3 ) 4"
  {
    var ws := StrayBracketWords();
    assert Text(ws, 4) == "4";
    assert Text(ws, 3) == ") 4";
    assert Text(ws, 2) == "3 ) 4";
    assert Text(ws, 1) == "+ 3 ) 4";
  }

  lemma StrayBracketPieceWords()
    ensures Writes(StrayBracketWords(), TestVariables())
    ensures WordLexemes(StrayBracketWords(), TestVariables(), 0) == [Number(2.0), Plus, Number(3.0), RightBracket, Number(4.0)]
  {
  }

  lemma StrayBracketPiece()
    ensures Scan("2 + 3 ) 4", TestVariables()) == Success([Number(2.0), Plus, Number(3.0), RightBracket, Number(4.0)])
  {
    StrayBracketPieceText();
    StrayBracketPieceWords();
    LayoutRoundTrip(StrayBracketWords(), TestVariables(), 0);
  }
}
