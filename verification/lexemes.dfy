/**
 Lexemes: the tokens the tokenizer produces and the evaluator consumes.
 A number lexeme carries its numeric value directly; the Java code carries the
 text of the number and parses it again when it is evaluated.
 */
module Lexemes {

  datatype Lexeme =
    | Number(value: real)
    | LeftBracket
    | RightBracket
    | Plus
    | Minus
    | Mult
    | Div
    | Eoe            // end of expression, appended once after the last real lexeme

  /** A lexeme sequence as the tokenizer hands it to the cursor: its last lexeme is the sentinel. */
  predicate EndsWithEoe(lexemes: seq<Lexeme>) {
    |lexemes| > 0 && lexemes[|lexemes| - 1].Eoe?
  }
}
