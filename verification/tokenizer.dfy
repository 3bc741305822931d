/**
 The tokenizer (parseExpression): scans the expression left to right and turns
 it into lexemes, substituting the value of each variable as it is read, then
 appends the end-of-expression sentinel.

 ExpressionResolver.java walks an index i over the string; here each step consumes a prefix
 of the remaining text and recurses on the rest, which is the same scan.
 */
module Tokenizer {
  import opened Errors
  import opened Lexemes

  type Variables = map<string, real>

  predicate IsDigit(c: char) { '0' <= c <= '9' }

  /** A character that may start a variable name. */
  predicate IsLetter(c: char) { 'a' <= c <= 'z' }

  /** A character that may continue a variable name: the Java code only lets 'a' and 'b' follow the first letter. */
  predicate IsNameTail(c: char) { 'a' <= c <= 'b' }

  predicate IsPunctuation(c: char) {
    c == '(' || c == ')' || c == '+' || c == '-' || c == '*' || c == '/'
  }

  /** Every character the tokenizer accepts; any other one raises UnexpectedSymbol. */
  predicate Recognized(c: char) {
    IsPunctuation(c) || IsDigit(c) || IsLetter(c) || c == ' '
  }

  /** A name the scanner can produce: one letter, then only 'a' or 'b'. */
  predicate IsScannedName(name: string) {
    |name| > 0 && IsLetter(name[0]) && forall k :: 1 <= k < |name| ==> IsNameTail(name[k])
  }

  /** The lexeme of a bracket or operator character: never a number and never the sentinel. */
  function PunctuationLexeme(c: char): (t: Lexeme)
    requires IsPunctuation(c)
    ensures !t.Number? && !t.Eoe?
  {
    match c
    case '(' => LeftBracket
    case ')' => RightBracket
    case '+' => Plus
    case '-' => Minus
    case '*' => Mult
    case '/' => Div
  }

  /** Length of the longest prefix of s made of digits. */
  function DigitRun(s: string): (n: nat)
    ensures n <= |s|
    ensures forall k :: 0 <= k < n ==> IsDigit(s[k])
    ensures n == |s| || !IsDigit(s[n])
  {
    if |s| > 0 && IsDigit(s[0]) then 1 + DigitRun(s[1..]) else 0
  }

  /** Length of the longest prefix of s made of characters that may continue a name. */
  function NameTailRun(s: string): (n: nat)
    ensures n <= |s|
    ensures forall k :: 0 <= k < n ==> IsNameTail(s[k])
    ensures n == |s| || !IsNameTail(s[n])
  {
    if |s| > 0 && IsNameTail(s[0]) then 1 + NameTailRun(s[1..]) else 0
  }

  function DigitValue(c: char): nat
    requires IsDigit(c)
  {
    (c as int) - ('0' as int)
  }

  function Pow10(n: nat): (p: nat)
    ensures p > 0
  {
    if n == 0 then 1 else 10 * Pow10(n - 1)
  }

  /** The number a string of decimal digits denotes (leading zeros allowed): below 10 to the number of digits. */
  function DigitsValue(d: string): (v: nat)
    requires forall k :: 0 <= k < |d| ==> IsDigit(d[k])
    ensures v < Pow10(|d|)
  {
    if |d| == 0 then 0 else 10 * DigitsValue(d[..|d| - 1]) + DigitValue(d[|d| - 1])
  }

  /** The lexemes of s, without the sentinel; the first error met from the left wins. */
  function Scan(s: string, vars: Variables): (r: Result<seq<Lexeme>>)
    ensures r.Success? ==> |r.value| <= |s|
    ensures r.Success? ==> forall k :: 0 <= k < |r.value| ==> !r.value[k].Eoe?
    ensures r.Failure? ==> !r.error.ExpressionCannotBeResolved?
    ensures r.Failure? && r.error.UnexpectedSymbol? ==> r.error.symbol in s && !Recognized(r.error.symbol)
    ensures r.Failure? && r.error.UnknownVariable? ==> r.error.name !in vars && IsScannedName(r.error.name)
    decreases |s|
  {
    if |s| == 0 then Success([])
    else
      var c := s[0];
      if IsPunctuation(c) then
        var rest :- Scan(s[1..], vars);
        Success([PunctuationLexeme(c)] + rest)
      else if IsDigit(c) then
        var n := DigitRun(s);
        var rest :- Scan(s[n..], vars);
        Success([Number(DigitsValue(s[..n]) as real)] + rest)
      else if IsLetter(c) then
        var n := 1 + NameTailRun(s[1..]);
        var name := s[..n];
        if name !in vars then Failure(UnknownVariable(name))
        else
          var rest :- Scan(s[n..], vars);
          Success([Number(vars[name])] + rest)
      else if c == ' ' then Scan(s[1..], vars)
      else Failure(UnexpectedSymbol(c))
  }

  /** parseExpression: the lexemes of the expression followed by exactly one Eoe. */
  function ParseExpression(s: string, vars: Variables): (r: Result<seq<Lexeme>>)
    ensures r.Success? ==> EndsWithEoe(r.value) && |r.value| <= |s| + 1
    ensures r.Success? ==> forall k :: 0 <= k < |r.value| - 1 ==> !r.value[k].Eoe?
    ensures r.Failure? ==> !r.error.ExpressionCannotBeResolved?
    ensures r.Failure? && r.error.UnexpectedSymbol? ==> r.error.symbol in s && !Recognized(r.error.symbol)
    ensures r.Failure? && r.error.UnknownVariable? ==> r.error.name !in vars && IsScannedName(r.error.name)
  {
    var lexemes :- Scan(s, vars);
    Success(lexemes + [Eoe])
  }
}
