# Expression resolver, modelled in Dafny

`ExpressionResolver.resolveExpression` takes an arithmetic expression as a
string and a map from variable names to values, and returns the value of the
expression, or 0 when the expression cannot be evaluated. It works in two
stages:

- `parseExpression` is the tokenizer. It scans the string left to right and
  turns it into lexemes:
  - each of `( ) + - * /` is one lexeme;
  - a maximal run of digits is one number;
  - a variable name is replaced by its value;
  - spaces are skipped;
  - any other character raises `UnexpectedSymbol`, and an unknown name raises
    `UnknownVariable`;
  - one end-of-expression sentinel (`EOE`) is appended.
- `expr`, `plusminus`, `multdiv` and `factor` form a recursive-descent
  evaluator over a pushback cursor (`LexemeBuffer`). It has two precedence
  levels, folds each level left to right, and raises
  `ExpressionCannotBeResolved` on a lexeme that the grammar does not allow.

The model keeps both quirks of the code:

- A variable name is one letter `a`–`z` followed only by `a` or `b`
  (ExpressionResolver.java:100-111). So `xy` is read as the variable `x`
  followed by the variable `y`, and `multdiv` rejects the two adjacent
  numbers. Only `a` and `b` may follow the first letter; the model follows
  the code.
- Neither `expr` nor `resolveExpression` checks that the evaluator stopped at
  `EOE`. `plusminus` stops at a `)` as well, so `2 + 3 ) 4` evaluates to 5.

Files and modules:

- `errors.dfy` (`Errors`): the three exceptions as one `Error` datatype, and
  a `Result` type that the tokenizer and the evaluator return instead of
  throwing.
- `lexemes.dfy` (`Lexemes`): the lexeme kinds. A number lexeme carries its
  value.
- `arith.dfy` (`Arith`): values are exact reals, plus a `DivByZero` outcome
  that absorbs every later operation.
- `tokenizer.dfy` (`Tokenizer`): `parseExpression`. The Java code walks an index
  over the string; the model consumes a prefix and recurses on the rest.
- `evaluator.dfy` (`Evaluator`): the four grammar functions. The cursor is a
  position into the immutable lexeme sequence:
  - `next` reads at the position and moves one step on;
  - `back` always directly follows a `next`, so it is modelled as returning
    the position the lexeme was read from;
  - each `while (true)` loop is a tail-recursive `…Rest` function that
    carries the running value.
- `syntax.dfy` (`Syntax`): the reference semantics. It has arithmetic trees
  with their value (`Eval`), and a printer (`Print`) that writes a tree as
  lexemes, with brackets only where precedence and left associativity need
  them.
- `tokenizer_laws.dfy`, `layout.dfy` and `evaluator_laws.dfy`: the
  properties of the tokenizer and of the evaluator.
  - The tokenizer's partner is `Layout`: words written with any spacing read
    back as their lexemes.
  - The evaluator's partner is `Syntax`, connected in both directions:
    - completeness: the printing of any tree evaluates to its value;
    - soundness: whatever the evaluator accepts is the printing of a tree,
      and it returns that tree's value.
- `resolver.dfy` (`Resolver`): `resolveExpression`, and the lemmas that
  connect text to value.
- `resolver_pieces.dfy` and `resolver_cases.dfy`: the seven expressions of
  the repository's unit test, plus the two quirks, as lemmas with their exact
  values. The test truncates each result to `int`. Each lemma states the
  exact value, whose truncation toward zero is the integer the test expects.

## Model

| member | source | states |
|---|---|---|
| Tokenizer.DigitRun | src/main/java/ru/matytsin/expression_resolver/ExpressionResolver.java:85-96 | the digit loop reads a maximal run: every character before the returned length is a digit, and the next character, if any, is not |
| Tokenizer.PunctuationLexeme | src/main/java/ru/matytsin/expression_resolver/ExpressionResolver.java:53-82 | each bracket or operator character is one lexeme that is neither a number nor the sentinel; `Layout.PunctuationText` and `Layout.PunctuationReading` pin down which one |
| Tokenizer.NameTailRun | src/main/java/ru/matytsin/expression_resolver/ExpressionResolver.java:103-111 | the name loop after the first letter reads a maximal run of `a`/`b` and stops at the first other character |
| Tokenizer.DigitsValue | src/main/java/ru/matytsin/expression_resolver/ExpressionResolver.java:86-98 | the decimal value of a digit run, below 10 to the power of its length; `TokenizerLaws.DigitsRoundTrip` pins it down |
| Tokenizer.Scan | src/main/java/ru/matytsin/expression_resolver/ExpressionResolver.java:47-126 | on success no lexeme is the sentinel and there are at most as many lexemes as characters; an `UnexpectedSymbol` names a character of the input outside the accepted set; an `UnknownVariable` names a scannable name that is not a key of the map; the tokenizer never raises `ExpressionCannotBeResolved` |
| Tokenizer.ParseExpression | src/main/java/ru/matytsin/expression_resolver/ExpressionResolver.java:45-131 | on success the lexemes end with exactly one `EOE`, which is the last lexeme; the same error guarantees as the scan |
| TokenizerLaws.UnrecognizedFails | src/main/java/ru/matytsin/expression_resolver/ExpressionResolver.java:118-120 | one character outside `( ) + - * /`, digits, `a`–`z` and space anywhere in the input makes tokenizing fail; which error wins depends on what comes before it (see `FirstUnrecognized`) |
| TokenizerLaws.FirstUnrecognized | src/main/java/ru/matytsin/expression_resolver/ExpressionResolver.java:118-120 | when the text before an unaccepted character tokenizes, whatever variables it uses, tokenizing the whole fails with `UnexpectedSymbol` of exactly that character |
| TokenizerLaws.UnknownNameOccurs | src/main/java/ru/matytsin/expression_resolver/ExpressionResolver.java:113-114 | the name in an `UnknownVariable` error is written in the input, at the returned index |
| TokenizerLaws.NoLettersSucceeds | src/main/java/ru/matytsin/expression_resolver/ExpressionResolver.java:50-126 | input made only of brackets, operators, digits and spaces always tokenizes, whatever the map holds |
| TokenizerLaws.LeadingSpacesIgnored | src/main/java/ru/matytsin/expression_resolver/ExpressionResolver.java:118-123 | spaces in front of any text change neither the lexemes nor the error |
| TokenizerLaws.BlankInput | src/main/java/ru/matytsin/expression_resolver/ExpressionResolver.java:50-128 | an empty or all-space input tokenizes to the sentinel alone |
| TokenizerLaws.DigitRunIsOneNumber | src/main/java/ru/matytsin/expression_resolver/ExpressionResolver.java:85-98 | a maximal run of digits becomes exactly one number lexeme with the run's decimal value, and scanning goes on right after the run |
| TokenizerLaws.VariableIsOneNumber | src/main/java/ru/matytsin/expression_resolver/ExpressionResolver.java:100-116 | a letter followed by a maximal run of `a`/`b` is one name: unknown, it fails with `UnknownVariable(name)`; known, it becomes one number carrying the mapped value, and scanning goes on after it |
| TokenizerLaws.DigitsRoundTrip | src/main/java/ru/matytsin/expression_resolver/ExpressionResolver.java:85-98 | the decimal digits of a natural number read back as that number |
| TokenizerLaws.LeadingZeroIgnored | src/main/java/ru/matytsin/expression_resolver/ExpressionResolver.java:86-98 | a leading zero does not change the value of a digit run, as `Double.parseDouble` reads it (:230) |
| TokenizerLaws.ScanAppend | src/main/java/ru/matytsin/expression_resolver/ExpressionResolver.java:50-126 | text cut before a space, bracket or operator tokenizes piece by piece: the lexemes of the whole are those of the two pieces in order, and the first piece's error comes first |
| Layout.SpacedLexemes | src/main/java/ru/matytsin/expression_resolver/ExpressionResolver.java:50-126 | lexemes written one space apart form a valid layout whose lexemes are the original ones |
| Layout.PunctuationText | src/main/java/ru/matytsin/expression_resolver/ExpressionResolver.java:53-82 | the lexeme each bracket or operator character reads as is written as exactly that character |
| Layout.PunctuationReading | src/main/java/ru/matytsin/expression_resolver/ExpressionResolver.java:53-82 | each bracket or operator lexeme is written as one character, which reads back as that lexeme |
| Layout.LayoutRoundTrip | src/main/java/ru/matytsin/expression_resolver/ExpressionResolver.java:47-126 | words written with any spacing, variables by name, no two operands touching, tokenize back to exactly their lexemes |
| Layout.LayoutParses | src/main/java/ru/matytsin/expression_resolver/ExpressionResolver.java:45-131 | parseExpression of written words returns their lexemes followed by the sentinel |
| Arith.Apply | src/main/java/ru/matytsin/expression_resolver/ExpressionResolver.java:179-209 | `+ - * /` on finite values are the exact real operations; the result is `DivByZero` exactly when an operand is, or the operation is a division by zero |
| Evaluator.Factor | src/main/java/ru/matytsin/expression_resolver/ExpressionResolver.java:225-243 | any lexeme other than a number or `(` fails with `ExpressionCannotBeResolved`; on success the cursor has moved forward, stays in bounds, and after a `(` the last lexeme read is a `)` |
| Evaluator.MultDiv | src/main/java/ru/matytsin/expression_resolver/ExpressionResolver.java:197-223 | the only error is `ExpressionCannotBeResolved`; on success the cursor has moved forward, stays in bounds, and was pushed back onto `EOE`, `)`, `+` or `-` |
| Evaluator.MultDivRest | src/main/java/ru/matytsin/expression_resolver/ExpressionResolver.java:200-222 | on `EOE`, `)`, `+` or `-` the loop of multdiv stops there and returns the value folded so far; whenever it succeeds it has stopped on one of these four, and its only error is `ExpressionCannotBeResolved` |
| Evaluator.PlusMinus | src/main/java/ru/matytsin/expression_resolver/ExpressionResolver.java:171-195 | the only error is `ExpressionCannotBeResolved`; on success the cursor has moved forward, stays in bounds, and was pushed back onto `EOE` or `)` |
| Evaluator.PlusMinusRest | src/main/java/ru/matytsin/expression_resolver/ExpressionResolver.java:174-194 | the loop of plusminus stops at `EOE` or `)` with the value folded so far; a `*`, `/`, number or `(` in operator position fails |
| Evaluator.Expr | src/main/java/ru/matytsin/expression_resolver/ExpressionResolver.java:160-169 | a sequence that starts with `EOE` evaluates to 0; the only error is `ExpressionCannotBeResolved` |
| EvaluatorLaws.BracketMustClose | src/main/java/ru/matytsin/expression_resolver/ExpressionResolver.java:232-238 | factor on `(` succeeds exactly when the inner plusminus succeeds and stops at `)`; then it returns the inner value with the cursor past the `)` |
| EvaluatorLaws.SumParses | src/main/java/ru/matytsin/expression_resolver/ExpressionResolver.java:171-195 | on the printing of any tree followed by a lexeme that ends a term, plusminus reads the whole printing and reaches its loop holding the tree's value: `+`/`-` fold left to right over operands that multdiv has read |
| EvaluatorLaws.TermParses | src/main/java/ru/matytsin/expression_resolver/ExpressionResolver.java:197-223 | on the printing of any tree at the `*`/`/` level, multdiv reads the whole printing and reaches its loop holding the tree's value: `*`/`/` fold left to right, above `+`/`-` |
| EvaluatorLaws.AtomParses | src/main/java/ru/matytsin/expression_resolver/ExpressionResolver.java:225-243 | factor reads exactly the printing of a literal or of a bracketed tree and returns its value |
| EvaluatorLaws.PlusMinusComputesEval | src/main/java/ru/matytsin/expression_resolver/ExpressionResolver.java:171-195 | plusminus on a printed tree followed by `EOE` or `)` returns the tree's value and stops right after the printing |
| EvaluatorLaws.ExprComputesEval | src/main/java/ru/matytsin/expression_resolver/ExpressionResolver.java:160-169 | expr on the printing of any tree, followed by `EOE` or by `)` and anything at all, returns the tree's value: `*` and `/` bind tighter than `+` and `-`, and brackets group |
| EvaluatorLaws.MissingOperandFails | src/main/java/ru/matytsin/expression_resolver/ExpressionResolver.java:178-192 | after the printing of any tree, a `+` or `-` followed by anything but a number or `(` makes expr fail with `ExpressionCannotBeResolved` |
| EvaluatorLaws.FactorSound | src/main/java/ru/matytsin/expression_resolver/ExpressionResolver.java:225-243 | whatever factor accepts is the printing of a literal or a group, and it returns that tree's value |
| EvaluatorLaws.MultDivRestSound | src/main/java/ru/matytsin/expression_resolver/ExpressionResolver.java:200-222 | each turn of the multdiv loop extends the tree folded so far by one `*`/`/` operand, keeping printing and value in step |
| EvaluatorLaws.MultDivSound | src/main/java/ru/matytsin/expression_resolver/ExpressionResolver.java:197-223 | whatever multdiv accepts is the printing of a tree at the `*`/`/` level, and it returns that tree's value |
| EvaluatorLaws.PlusMinusRestSound | src/main/java/ru/matytsin/expression_resolver/ExpressionResolver.java:174-194 | each turn of the plusminus loop extends the tree folded so far by one `+`/`-` operand |
| EvaluatorLaws.PlusMinusSound | src/main/java/ru/matytsin/expression_resolver/ExpressionResolver.java:171-195 | whatever plusminus accepts is the printing of a tree, and it returns that tree's value |
| EvaluatorLaws.ExprSound | src/main/java/ru/matytsin/expression_resolver/ExpressionResolver.java:160-169 | when expr succeeds on a sequence that does not start with `EOE`, a prefix is the printing of a tree whose value it returned, and that prefix is followed by `EOE` or `)` |
| Resolver.Evaluate | src/main/java/ru/matytsin/expression_resolver/ExpressionResolver.java:252-262 | a tokenizer error is the pipeline's error; `ExpressionCannotBeResolved` only arises after tokenizing succeeded |
| Resolver.ResolveExpression | src/main/java/ru/matytsin/expression_resolver/ExpressionResolver.java:252-270 | the evaluated value when there is no error, and 0 when any of the three errors occurs |
| Resolver.BlankEvaluatesToZero | src/main/java/ru/matytsin/expression_resolver/ExpressionResolver.java:160-164 | an empty or all-space expression evaluates to 0 without error |
| Resolver.UnrecognizedResolvesToZero | src/main/java/ru/matytsin/expression_resolver/ExpressionResolver.java:263-269 | an expression with any unaccepted character fails, and resolves to 0 |
| Resolver.ScannedTreeResolves | src/main/java/ru/matytsin/expression_resolver/ExpressionResolver.java:252-259 | text that tokenizes to the printing of a tree evaluates, and resolves, to the tree's value |
| Resolver.WrittenTreeResolves | src/main/java/ru/matytsin/expression_resolver/ExpressionResolver.java:252-259 | the printing of a tree written with any spacing and with variables for operands resolves to the tree's value |
| Resolver.PrintedTreeResolves | src/main/java/ru/matytsin/expression_resolver/ExpressionResolver.java:252-259 | every tree with natural-number literals has a text, and that text evaluates to the tree's value |
| Resolver.TrailingAfterBracketIgnored | src/main/java/ru/matytsin/expression_resolver/ExpressionResolver.java:186-189 | whatever follows a `)` that ends a complete expression is never read: the expression evaluates to the value before the `)` |
| Resolver.AdjacentVariablesRejected | src/main/java/ru/matytsin/expression_resolver/ExpressionResolver.java:100-116 | two one-letter variables written together, the second not `a` or `b`, tokenize to two adjacent numbers, which expr rejects, so the result is 0 |
| ResolverPieces.TestVariables | src/test/java/expression_resolver/ExpressionResolverTest.java:20-23 | the test's map: `x` is 10.5 and `y` is 20.1 |
| ResolverCases.MixedPrecedence | src/test/java/expression_resolver/ExpressionResolverTest.java:25 | `12 + 34 * 9 - 100 + (34 - 78) / 81` is 218 − 44/81, about 217 |
| ResolverCases.EmptyExpression | src/test/java/expression_resolver/ExpressionResolverTest.java:26 | the empty expression is 0 without error |
| ResolverCases.Greeting | src/test/java/expression_resolver/ExpressionResolverTest.java:27 | `Hello!` fails with `UnexpectedSymbol('H')` and resolves to 0 |
| ResolverCases.MisplacedBrackets | src/test/java/expression_resolver/ExpressionResolverTest.java:28 | `12 + 34 * 9 - 128 + )34 - 78( / 81` tokenizes but fails in expr, and resolves to 0 |
| ResolverCases.LeadingSpaces | src/test/java/expression_resolver/ExpressionResolverTest.java:29 | `          2 + 3` is 5 |
| ResolverCases.WideSpacing | src/test/java/expression_resolver/ExpressionResolverTest.java:30 | `126  + 100                - 923 / 4` is −4.75: division before subtraction |
| ResolverCases.WithVariables | src/test/java/expression_resolver/ExpressionResolverTest.java:31 | `x - 46 * (y + 4) / 2` with the test's map is −543.8 |
| ResolverCases.StrayBracket | src/main/java/ru/matytsin/expression_resolver/ExpressionResolver.java:160-169 | `2 + 3 ) 4` evaluates to 5 without error |
| ResolverCases.JoinedVariables | src/main/java/ru/matytsin/expression_resolver/ExpressionResolver.java:100-111 | `xy` with the test's map fails with `ExpressionCannotBeResolved` and resolves to 0 |

## Left out

- Arith.Apply: values are exact reals, not IEEE-754 doubles. Rounding is not
  modelled. A division by zero gives `DivByZero`, and every later operation
  keeps it. So `DivByZero` stands for whatever double Java ends with after a
  division by zero, finite or not. Java goes on with Infinity or NaN, and that
  can come back to a finite value: `2 / (1 / 0)` is 0.0 in Java and
  `5 - 1 / (1 / 0)` is 5.0, while the model gives `DivByZero` for both. Either
  way `resolveExpression` raises no error. Likewise `+`, `-` and `*` past
  `Double.MAX_VALUE` give Infinity in Java (ExpressionResolver.java:179, 183,
  205), while the model's exact result stays finite.
- `Double.parseDouble` of a digit run (ExpressionResolver.java:230): the model
  takes the run's exact decimal value. Java rounds a value that a double
  cannot hold exactly, such as 9007199254740993. A run whose value is at or
  above about 1.8 × 10^308 (a 309-digit run starting with 2, or any longer
  run without leading zeros) parses to Infinity. The model stays finite: with
  such a literal X, `X - X` is NaN in Java and 0 here.
- `variables.get(var).toString()` followed by `Double.parseDouble`
  (ExpressionResolver.java:116, 230): the model carries the mapped value
  directly, which is what that text round trip gives for a non-null value.
- A map entry whose value is null: `toString()` at ExpressionResolver.java:116
  throws a NullPointerException, which the catches at :263-267 do not handle,
  so `resolveExpression` throws. The model's map holds only values.
- Stack depth: each `(` adds a factor, plusminus and multdiv frame
  (ExpressionResolver.java:233, 172, 198), so a long enough run of `(` ends in
  a StackOverflowError out of `resolveExpression`. The model's recursion has
  no depth limit.
- UTF-16: `charAt` (ExpressionResolver.java:51) reads UTF-16 code units, so a
  character outside the Basic Multilingual Plane fails with `UnexpectedSymbol`
  of its high surrogate. The model's `char` is a whole Unicode scalar value,
  and the error carries that character.
- The `System.out.println` of error messages (ExpressionResolver.java:261-266)
  is I/O. The message texts of the exceptions are not modelled either: the
  model keeps only the error kind, the offending character and the unknown
  name.
- The instance fields and the constructor (ExpressionResolver.java:20-34) are
  never used by the static methods.
- `LexemeBuffer` (ExpressionResolver.java:138-158) is not a separate type. Its
  position is the `pos` that the evaluator functions take and return. The
  evaluator's contracts state that a position stays in bounds of a sequence
  ending in `EOE`, and Dafny's termination check covers the loops.
- Lexeme.java and the exception classes, including their Lombok-generated
  members, are replaced by the datatypes in `Lexemes` and `Errors`.
  LexemeType.java is not part of this model: its kinds are the ones that
  ExpressionResolver.java uses.
- The JUnit harness and its `(int)` casts: the test's expressions are lemmas
  with exact values.
- The map is only read: the model takes it as an immutable value, so there is
  nothing to prove about it not being changed.
