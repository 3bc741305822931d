/**
 Writing lexemes back as text, with any spacing, and reading them again: the
 tokenizer returns the written lexemes whatever the spaces between them, as
 long as two operands are not written flush against each other.
 */
module Layout {
  import opened Errors
  import opened Lexemes
  import opened Tokenizer
  import opened TokenizerLaws

  predicate IsNatural(v: real) {
    v >= 0.0 && v == v.Floor as real
  }

  /** A lexeme that has a text form: not the sentinel, and a number only if it is natural. */
  predicate Writable(l: Lexeme) {
    !l.Eoe? && (l.Number? ==> IsNatural(l.value))
  }

  predicate Printable(ls: seq<Lexeme>) {
    forall k :: 0 <= k < |ls| ==> Writable(ls[k])
  }

  function LexemeText(l: Lexeme): (s: string)
    requires Writable(l)
  {
    match l
    case Number(v) => NatToDigits(v.Floor)
    case LeftBracket => "("
    case RightBracket => ")"
    case Plus => "+"
    case Minus => "-"
    case Mult => "*"
    case Div => "/"
  }

  /** The lexeme a bracket or operator character reads as is written as that character. */
  lemma PunctuationText(c: char)
    requires IsPunctuation(c)
    ensures Writable(PunctuationLexeme(c)) && LexemeText(PunctuationLexeme(c)) == [c]
  {
  }

  /** A bracket or operator lexeme is written as one character, which reads back as that lexeme. */
  lemma PunctuationReading(l: Lexeme)
    requires Writable(l) && !l.Number?
    ensures |LexemeText(l)| == 1 && IsPunctuation(LexemeText(l)[0]) && PunctuationLexeme(LexemeText(l)[0]) == l
  {
  }

  function Spaces(n: nat): (s: string)
    ensures |s| == n && AllSpaces(s)
  {
    if n == 0 then "" else " " + Spaces(n - 1)
  }

  /** One item of a written expression: a lexeme or a variable name, then `gap` spaces. */
  datatype Word = Token(lexeme: Lexeme, gap: nat) | Name(name: string, gap: nat)

  predicate IsOperatorToken(w: Word) {
    w.Token? && !w.lexeme.Number? && !w.lexeme.Eoe?
  }

  predicate WellFormed(w: Word, vars: Variables) {
    match w
    case Token(l, _) => Writable(l)
    case Name(n, _) => IsScannedName(n) && n in vars
  }

  /** Word i and the one after it do not touch as two operands would. */
  predicate Apart(ws: seq<Word>, i: nat)
    requires i + 1 < |ws|
  {
    ws[i].gap > 0 || IsOperatorToken(ws[i]) || IsOperatorToken(ws[i + 1])
  }

  /** Two operands never touch: between neighbours there is a space or a bracket or operator. */
  predicate Separated(ws: seq<Word>) {
    forall i: nat :: i + 1 < |ws| ==> Apart(ws, i)
  }

  predicate Writes(ws: seq<Word>, vars: Variables) {
    Separated(ws) && forall i :: 0 <= i < |ws| ==> WellFormed(ws[i], vars)
  }

  function WordText(w: Word): string
    requires w.Token? ==> Writable(w.lexeme)
  {
    match w
    case Token(l, g) => LexemeText(l) + Spaces(g)
    case Name(n, g) => n + Spaces(g)
  }

  /** The text of the words from index `from` on. */
  function Text(ws: seq<Word>, from: nat): string
    requires from <= |ws| && forall i :: 0 <= i < |ws| ==> ws[i].Token? ==> Writable(ws[i].lexeme)
    decreases |ws| - from
  {
    if from == |ws| then "" else WordText(ws[from]) + Text(ws, from + 1)
  }

  /** The lexeme a word stands for: a variable name stands for its value. */
  function WordLexeme(w: Word, vars: Variables): Lexeme
    requires w.Name? ==> w.name in vars
  {
    match w
    case Token(l, _) => l
    case Name(n, _) => Number(vars[n])
  }

  /** The lexemes of the words from index `from` on. */
  function WordLexemes(ws: seq<Word>, vars: Variables, from: nat): (ls: seq<Lexeme>)
    requires from <= |ws| && forall i :: 0 <= i < |ws| ==> ws[i].Name? ==> ws[i].name in vars
    ensures |ls| == |ws| - from
    decreases |ws| - from
  {
    if from == |ws| then [] else [WordLexeme(ws[from], vars)] + WordLexemes(ws, vars, from + 1)
  }

  /** Every lexeme followed by one space. */
  function Spaced(ls: seq<Lexeme>): (ws: seq<Word>)
    requires Printable(ls)
    ensures |ws| == |ls|
    ensures forall i :: 0 <= i < |ls| ==> ws[i] == Token(ls[i], 1)
  {
    if |ls| == 0 then [] else [Token(ls[0], 1)] + Spaced(ls[1..])
  }

  lemma {:induction false} SpacedLexemes(ls: seq<Lexeme>, vars: Variables, from: nat)
    requires Printable(ls) && from <= |ls|
    ensures Writes(Spaced(ls), vars) && WordLexemes(Spaced(ls), vars, from) == ls[from..]
    decreases |ls| - from
  {
    if from < |ls| {
      SpacedLexemes(ls, vars, from + 1);
      assert [ls[from]] + ls[from + 1..] == ls[from..];
    }
  }

  /** Spaces after a word are skipped, and a word with no spaces is followed by `rest` itself. */
  lemma GapSkipped(gap: nat, rest: string, vars: Variables)
    ensures Scan(Spaces(gap) + rest, vars) == Scan(rest, vars)
    ensures gap > 0 ==> (Spaces(gap) + rest)[0] == ' '
    ensures gap == 0 ==> Spaces(gap) + rest == rest
  {
    LeadingSpacesIgnored(Spaces(gap), rest, vars);
  }

  lemma ScanNumberText(v: real, tail: string, vars: Variables)
    requires IsNatural(v) && (tail == [] || !IsDigit(tail[0]))
    ensures Scan(LexemeText(Number(v)) + tail, vars) ==
            match Scan(tail, vars)
            case Success(ls) => Success([Number(v)] + ls)
            case Failure(e) => Failure(e)
  {
    DigitRunIsOneNumber(LexemeText(Number(v)), tail, vars);
    DigitsRoundTrip(v.Floor);
  }

  lemma ScanOperatorText(l: Lexeme, tail: string, vars: Variables)
    requires Writable(l) && !l.Number?
    ensures Scan(LexemeText(l) + tail, vars) ==
            match Scan(tail, vars)
            case Success(ls) => Success([l] + ls)
            case Failure(e) => Failure(e)
  {
    assert (LexemeText(l) + tail)[1..] == tail;
  }

  lemma ScanTokenWord(l: Lexeme, gap: nat, rest: string, vars: Variables)
    requires Writable(l)
    requires gap > 0 || !l.Number? || rest == [] || IsPunctuation(rest[0])
    ensures Scan(WordText(Token(l, gap)) + rest, vars) ==
            match Scan(rest, vars)
            case Success(ls) => Success([l] + ls)
            case Failure(e) => Failure(e)
  {
    var tail := Spaces(gap) + rest;
    GapSkipped(gap, rest, vars);
    assert WordText(Token(l, gap)) + rest == LexemeText(l) + tail;
    if l.Number? {
      assert tail == [] || tail[0] == ' ' || IsPunctuation(tail[0]);
      ScanNumberText(l.value, tail, vars);
    } else {
      ScanOperatorText(l, tail, vars);
    }
  }

  lemma ScanNameWord(n: string, gap: nat, rest: string, vars: Variables)
    requires IsScannedName(n) && n in vars
    requires gap > 0 || rest == [] || IsPunctuation(rest[0])
    ensures Scan(WordText(Name(n, gap)) + rest, vars) ==
            match Scan(rest, vars)
            case Success(ls) => Success([Number(vars[n])] + ls)
            case Failure(e) => Failure(e)
  {
    var tail := Spaces(gap) + rest;
    assert WordText(Name(n, gap)) + rest == n + tail;
    GapSkipped(gap, rest, vars);
    assert tail == [] || tail[0] == ' ' || IsPunctuation(tail[0]);
    VariableIsOneNumber(n, tail, vars);
  }

  /** Scanning a word gives its lexeme, then scanning continues after its spaces. */
  lemma ScanOneWord(w: Word, rest: string, vars: Variables)
    requires WellFormed(w, vars)
    requires w.gap > 0 || IsOperatorToken(w) || rest == [] || IsPunctuation(rest[0])
    ensures Scan(WordText(w) + rest, vars) ==
            match Scan(rest, vars)
            case Success(ls) => Success([WordLexeme(w, vars)] + ls)
            case Failure(e) => Failure(e)
  {
    match w
    case Token(l, g) => ScanTokenWord(l, g, rest, vars);
    case Name(n, g) => ScanNameWord(n, g, rest, vars);
  }

  /** The text after a word begins with the next word's first character. */
  lemma NextWordStarts(ws: seq<Word>, vars: Variables, from: nat)
    requires Writes(ws, vars) && from < |ws|
    requires IsOperatorToken(ws[from])
    ensures IsPunctuation(Text(ws, from)[0])
  {
    var l := ws[from].lexeme;
    assert WellFormed(ws[from], vars);
    assert Text(ws, from) == LexemeText(l) + (Spaces(ws[from].gap) + Text(ws, from + 1));
  }

  /** One word more: if the text after word `from` reads back, so does the text from it. */
  lemma LayoutStep(ws: seq<Word>, vars: Variables, from: nat)
    requires Writes(ws, vars) && from < |ws|
    requires Scan(Text(ws, from + 1), vars) == Success(WordLexemes(ws, vars, from + 1))
    ensures Scan(Text(ws, from), vars) == Success(WordLexemes(ws, vars, from))
  {
    var rest := Text(ws, from + 1);
    if from + 1 < |ws| && IsOperatorToken(ws[from + 1]) {
      NextWordStarts(ws, vars, from + 1);
    }
    if from + 1 < |ws| {
      assert Apart(ws, from);
    }
    assert WellFormed(ws[from], vars);
    ScanOneWord(ws[from], rest, vars);
  }

  /** Nothing written reads back as nothing. */
  lemma NoWordsReadBack(ws: seq<Word>, vars: Variables)
    requires Writes(ws, vars)
    ensures Scan(Text(ws, |ws|), vars) == Success(WordLexemes(ws, vars, |ws|))
  {
  }

  /** The text from a word on reads back as the lexemes of the words from there on. */
  lemma {:induction false} TextReadsBack(ws: seq<Word>, vars: Variables, from: nat)
    requires Writes(ws, vars) && from < |ws|
    ensures Scan(Text(ws, from), vars) == Success(WordLexemes(ws, vars, from))
    decreases |ws| - from
  {
    if from + 1 < |ws| {
      TextReadsBack(ws, vars, from + 1);
    } else {
      NoWordsReadBack(ws, vars);
    }
    LayoutStep(ws, vars, from);
  }

  /** Writing words and tokenizing the text gives their lexemes back. */
  lemma LayoutRoundTrip(ws: seq<Word>, vars: Variables, from: nat)
    requires Writes(ws, vars) && from <= |ws|
    ensures Scan(Text(ws, from), vars) == Success(WordLexemes(ws, vars, from))
  {
    if from < |ws| {
      TextReadsBack(ws, vars, from);
    } else {
      NoWordsReadBack(ws, vars);
    }
  }

  /** parseExpression on written words: their lexemes, then the sentinel. */
  lemma LayoutParses(ws: seq<Word>, vars: Variables)
    requires Writes(ws, vars)
    ensures ParseExpression(Text(ws, 0), vars) == Success(WordLexemes(ws, vars, 0) + [Eoe])
  {
    LayoutRoundTrip(ws, vars, 0);
  }
}
