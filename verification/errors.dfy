/**
 The three exceptions the resolver throws (UnexpectedSymbol, UnknownVariable,
 ExpressionCannotBeResolved), as one closed set of error kinds, and a
 failure-compatible Result type that the tokenizer and the evaluator return
 instead of throwing.
 */
module Errors {

  datatype Error =
    | UnexpectedSymbol(symbol: char)   // a character the tokenizer does not know
    | UnknownVariable(name: string)    // a scanned name that is not a key of the variables
    | ExpressionCannotBeResolved       // the lexemes do not follow the grammar

  datatype Result<+T> = Success(value: T) | Failure(error: Error) {

    predicate IsFailure() {
      Failure?
    }

    function PropagateFailure<U>(): Result<U>
      requires Failure?
    {
      Failure(error)
    }

    function Extract(): T
      requires Success?
    {
      value
    }
  }
}
