# RPN interpreter and output recogniser, modelled in Dafny

This project models the pure core of `praxis`' Reverse Polish Notation
interpreter and its output-line recogniser:

- **Parser** (`praxis/rpn.lib.ts`): a line is split on every single space
  (`tokenize`). Each token is classified as an operator (`parseBinOp`) or
  else as a number (`parseToken`). The tokens are folded left to right into a
  `Program` (`parseProgram`). The parse stops at the first bad token and
  reports the program built so far and the tokens after the bad one.
- **Evaluator** (`praxis/rpn.lib.ts`): `step` and `evaluate` run a program
  against a stack whose top is index 0. A number is pushed. An operator pops
  `a` (the top), then `b`, and pushes `b <op> a`. An operator that finds
  fewer than two values fails with the "empty stack" error, and the error's
  program is the operator followed by everything not yet consumed. When the
  program is exhausted, the top of the stack is the result, and values below
  it are ignored.
- **Recogniser** (`praxis/rpn/recognize.py`): an output line is acceptable
  when it is empty, one of five fixed `ERROR: …` lines, or a number. A number
  is written in fixed-point form (`-?[0-9]+\.[0-9][0-9]`) or in scientific
  form (`-?[0-9]\.[0-9]+e[+-][0-9]+`). A line that ends with a newline is
  first stripped of newlines at both ends.

Numbers are `real`, so `+`, `-` and `*` are exact. Two things are parameters
of the model rather than functions of it:

- the number parser, `parseNum: string -> Option<real>`, which stands for
  `parseFloat`, with `None` for `NaN`;
- the quotient, `div: (real, real) -> real`.

Files and modules:

| file | module | contents |
|---|---|---|
| wrappers.dfy | Wrappers | `Option`, `Result` |
| binop.dfy | BinOps | operators, their spelling, `ParseBinOp`, `EvaluateBinOp` |
| message.dfy | Messages | `ErrorMessage` and the three error texts |
| parser.dfy | Parser | `Tokenize`/`Join`, `ParseToken`, `ParseLoop`, `ParseProgram`, `ShowParseError`, the print/parse round trip |
| parser_examples.dfy | ParserExamples | the parser's unit-test vectors and edge cases |
| evaluator.dfy | Evaluator | `Step`, `Exec`, `Evaluate`, the loop `EvaluateLoop`, `ShowEvalError`, the stack-height characterisation `Balanced` |
| postfix.dfy | Postfix | expression trees, `ToPostfix`, `Denote`, reading a program back into expressions (`Build`), and the evaluator's correctness against them |
| evaluator_examples.dfy | EvaluatorExamples | the evaluator's unit-test vectors |
| recognize.dfy | Recognizer | `Errors`, `strip("\n")`, the number language and a hand-coded matcher for it, `Recognize` |
| recognize_examples.dfy | RecognizerExamples | accepted and rejected lines |
| crosscheck.dfy | CrossCheck | every error line the interpreter prints is recognised |

Three behaviours of the code are easy to misread, and the model states each:

- At the end of a run the code returns the top value and ignores the rest
  of the stack (`praxis/rpn.lib.ts:177-181`); `[1, 2, 3]` evaluates to 3.
  `Postfix.EvaluateIgnoresDeeper` proves this for any sequence of
  expressions, and `Postfix.EvaluateValue` gives the value of every
  successful run this way.
- An operator with fewer than two operands produces
  `EVAL_ERROR_EMPTY_STACK` (`praxis/rpn.lib.ts:154-159`), and
  `EVAL_ERROR_BINOP_STACK` is never constructed. `Evaluator.Evaluate` states
  that every error is `EmptyStack`.
- For `[3, 4, "-"]` the code computes `3 - 4 = -1`: the value pushed first is
  the left operand (`praxis/rpn.lib.ts:153-160`).

Two clauses of `recognize` can never fire, and the model keeps both as the
source writes them:

- The comparison `s == "\n"` is dead, because the string has already been
  stripped when it ended with a newline.
- Python's `$` also matches just before a final newline. `RegexMatch` keeps
  that rule, but the prepared string never ends with a newline.

`Recognizer.RecognizeSpec` proves that neither clause changes the result.

## Model

| member | source | states |
|---|---|---|
| BinOps.ParseBinOp | praxis/rpn.lib.ts:22-37 | an operator is returned exactly for the four tokens `+ - * /`, and the returned operator is spelled by the token; every other string is "not an operator" |
| BinOps.ParseSymbol | praxis/rpn.lib.ts:16-37 | classifying the spelling of any operator gives that operator back |
| BinOps.ParseBinOpExamples | praxis/rpn.test.ts:14-18 | `+` and `*` are recognised, `_` is not |
| BinOps.EvaluateBinOp | praxis/rpn.lib.ts:121-140 | no contract: the four operators on reals, with division a parameter standing for IEEE division; characterised through `Evaluator.Step` (the earlier-pushed value is the left operand) and `Postfix.EvaluatePostfix` |
| Messages.ErrorMessage | praxis/rpn.lib.ts:9-11 | an error line is `ERROR: ` followed by the text, and the text is recovered by dropping the prefix |
| Messages.ErrorMessageInjective | praxis/rpn.lib.ts:9-11 | two error lines are equal exactly when their texts are equal |
| Parser.Tokenize | praxis/rpn.lib.ts:49-53 | splitting gives at least one token, and no token contains a space |
| Parser.TokenizeCount | praxis/rpn.lib.ts:50-53 | splitting gives exactly one more token than the line has spaces |
| Parser.JoinTokenize | praxis/rpn.lib.ts:50-53 | joining the tokens with single spaces gives the line back, so nothing is trimmed or collapsed |
| Parser.TokenizeJoin | praxis/rpn.lib.ts:50-53 | space-free tokens joined with single spaces split back into exactly those tokens, so the split is the unique such decomposition |
| Parser.TokenizeSingle | praxis/rpn.lib.ts:50-53 | a line without spaces is a single token, itself |
| Parser.TokenizeSeparated | praxis/rpn.lib.ts:50-53 | a space-free token followed by a space splits off as the first token, and the rest of the line splits on its own |
| Parser.ParseToken | praxis/rpn.lib.ts:66-80 | operator tokens become operators whatever the number parser says; any other token is a number exactly when the number parser accepts it, and otherwise it is bad |
| Parser.OperatorIgnoresNumberParser | praxis/rpn.lib.ts:70-73 | an operator token is classified without consulting the number parser: any two number parsers give the same result |
| Parser.ParseLoop | praxis/rpn.lib.ts:86-98 | every parse error is a bad-token error; success adds one element per token; on failure the accumulated program, the bad token and the remaining tokens together account for every token |
| Parser.ParseLoopSuccess | praxis/rpn.lib.ts:86-98 | on success the output is the accumulated program followed by the parse of every token, in order |
| Parser.ParseLoopFailure | praxis/rpn.lib.ts:86-98 | on failure the error's program is the accumulated program followed by the parses of the tokens before the first bad one, that token parses to nothing, and `rest` is exactly the tokens after it |
| Parser.GoodPrefixCons | praxis/rpn.lib.ts:88-92 | a good token followed by a parsed run of tokens gives a parsed run one longer |
| Parser.ParseProgram | praxis/rpn.lib.ts:83-99 | success gives one element per token, element `i` being the parse of token `i`; failure stops at the first bad token with `prog` the parse of the tokens before it, `rest` the tokens after it, and `|prog| + 1 + |rest|` equal to the token count |
| Parser.ParseSucceedsIff | praxis/rpn.lib.ts:83-99 | a line parses exactly when every one of its tokens is an operator or a number |
| Parser.DoubleSpaceFails | praxis/rpn.lib.ts:50-53 | a line with two consecutive spaces fails to parse whenever the number parser rejects the empty string |
| Parser.ShowParseError | praxis/rpn.lib.ts:62-64 | every parse error prints as `ERROR: ` followed by the bad-token text |
| Parser.ParseShowProgram | praxis/rpn.lib.ts:83-99 | a non-empty program printed with a number spelling that the number parser reads back parses back to the same program |
| ParserExamples.TokenizeEmptyLine | praxis/rpn.lib.ts:50-53 | the empty line is one empty token |
| ParserExamples.TokenizeDoubleSpace | praxis/rpn.lib.ts:50-53 | a double space yields an empty token between its neighbours |
| ParserExamples.ParseProgramExamples | praxis/rpn.test.ts:20-24 | `"0"`, `"0 0"` and `"0 0 +"` parse to `[0]`, `[0, 0]` and `[0, 0, +]` |
| ParserExamples.ParseFailureExample | praxis/rpn.lib.ts:87-95 | in `"1 x 2 +"` the parse stops at `x` with `prog = [1]` and `rest = ["2", "+"]`: the bad token is dropped |
| Evaluator.Step | praxis/rpn.lib.ts:147-165 | a number is pushed; an operator replaces the top `a` and the next `b` with `b <op> a`, so the value pushed earlier is the left operand, and leaves the rest of the stack and program alone; it fails exactly when an operator meets fewer than two values, with the operator kept at the front of the error's program |
| Evaluator.Exec | praxis/rpn.lib.ts:171-176 | a completed run leaves a stack whose height is the start height plus numbers minus operators; a failed run is always an empty-stack error with a non-empty program no longer than the input |
| Evaluator.ExecFailure | praxis/rpn.lib.ts:152-159 | a failed run stops at the first operator that finds fewer than two values: every operator before it found two, the stack holds fewer than two when it is reached, and the error's program is the unconsumed suffix from that operator on |
| Evaluator.StoppedAtCons | praxis/rpn.lib.ts:171-176 | a successful step before the failure point leaves the failure point where it was |
| Evaluator.ExecSucceedsIff | praxis/rpn.lib.ts:147-176 | a run completes exactly when every operator finds at least two values, counted from heights alone |
| Evaluator.ExecAppend | praxis/rpn.lib.ts:147-176 | running `p1 + p2` runs `p1` then `p2` from the stack `p1` left; an error inside `p1` carries the rest of `p1` followed by all of `p2` |
| Evaluator.Evaluate | praxis/rpn.lib.ts:168-183 | errors are always the empty-stack error, never the binop-stack one; a non-empty error program is the suffix from the first operator that meets fewer than two values (every earlier operator found two); success holds exactly when the program is balanced with net height at least one, and the empty-program error exactly when it is balanced with net height zero |
| Evaluator.EvaluateLeadingOperator | praxis/rpn.lib.ts:154-159 | a program whose first element is an operator fails at once, and the error's program is the whole program |
| Evaluator.EvaluateLoop | praxis/rpn.lib.ts:168-183 | the loop of steps followed by one pop computes exactly `Evaluate` |
| Evaluator.ShowEvalError | praxis/rpn.lib.ts:112-114 | each error variant prints as `ERROR: ` followed by its own text |
| Evaluator.ShowEvalErrorDistinguishes | praxis/rpn.lib.ts:106-114 | two error lines are equal exactly when the errors are of the same variant |
| Postfix.ExecPostfix | praxis/rpn.lib.ts:147-165 | running an expression's postfix program pushes exactly the expression's value and leaves the stack below it and the following program untouched |
| Postfix.ApplyOperator | praxis/rpn.lib.ts:152-160 | an operator that finds `dr` on top of `dl` continues the run with `dl <op> dr` in their place |
| Postfix.EvaluatePostfix | praxis/rpn.lib.ts:168-183 | a postfix program evaluates to its expression's value, with the earlier-pushed value as left operand |
| Postfix.ExecFlatten | praxis/rpn.lib.ts:171-176 | several postfix expressions in a row push their values in order: position `i` from the top holds the value of the `i`-th expression from the end, so the last one's value ends on top, with one value per expression and the stack below untouched |
| Postfix.EvaluateIgnoresDeeper | praxis/rpn.lib.ts:177-181 | any non-empty sequence of expressions in a row evaluates to the last one's value; the deeper values are ignored |
| Postfix.EvaluateThreeNumbers | praxis/rpn.lib.ts:177-181 | `[1, 2, 3]` evaluates to 3 |
| Postfix.FlattenShift | praxis/rpn.lib.ts:147-165 | reading one program element onto a stack of expressions adds exactly that element to the expressions' postfix text, mirroring one evaluation step |
| Postfix.BuildFlatten | praxis/rpn.lib.ts:168-176 | reading a balanced program onto a stack of expressions loses nothing: the result, written back in postfix, is the old stack's text followed by the program |
| Postfix.Decompose | praxis/rpn.lib.ts:168-181 | every program whose operators all find two values is a run of postfix expressions, one per value it leaves on the stack |
| Postfix.EvaluateValue | praxis/rpn.lib.ts:168-183 | whenever evaluation succeeds it returns the value of the last expression the program reads back into (under the earlier-pushed-is-left operand order), whatever the program's shape |
| EvaluatorExamples.EvaluateEmpty | praxis/rpn.test.ts:27 | `[]` gives the empty-stack error with an empty program |
| EvaluatorExamples.EvaluateLonePlus | praxis/rpn.test.ts:28-31 | `["+"]` gives the empty-stack error with program `["+"]` |
| EvaluatorExamples.EvaluateZero | praxis/rpn.test.ts:32 | `[0]` evaluates to 0 |
| EvaluatorExamples.EvaluateSums | praxis/rpn.test.ts:33-34 | `[0, 0, +]` is 0 and `[0, 1, +]` is 1 |
| EvaluatorExamples.EvaluateDifference | praxis/rpn.test.ts:35 | `[3, 4, -]` is -1 |
| EvaluatorExamples.EvaluateChained | praxis/rpn.test.ts:36 | `[3, 4, -, 5, +]` is 4 |
| EvaluatorExamples.EvaluateNested | praxis/rpn.test.ts:37 | `[3, 4, 5, *, -]` is -17 |
| Recognizer.Errors | praxis/rpn/recognize.py:8-16 | the list has five entries, each `ERROR: ` followed by the matching parse or evaluation message, parse messages first |
| Recognizer.StripLeading | praxis/rpn/recognize.py:35 | the result is a suffix of the input, everything cut off is a newline, and the result does not start with one |
| Recognizer.StripTrailing | praxis/rpn/recognize.py:35 | the result is a prefix of the input, everything cut off is a newline, and the result does not end with one |
| Recognizer.StripNewlines | praxis/rpn/recognize.py:35 | the result is an infix of the input framed only by newlines, and it neither starts nor ends with a newline |
| Recognizer.FramedUnique | praxis/rpn/recognize.py:35 | at most one newline-framed infix of a string neither starts nor ends with a newline, so the stripping contracts determine the result |
| Recognizer.StripLeadingFrame | praxis/rpn/recognize.py:35 | stripping leading newlines removes exactly a leading run of newlines |
| Recognizer.StripTrailingFrame | praxis/rpn/recognize.py:35 | stripping trailing newlines removes exactly a trailing run of newlines |
| Recognizer.StripFramed | praxis/rpn/recognize.py:35 | stripping removes exactly the newline frame around a string that neither starts nor ends with a newline |
| Recognizer.DigitRun | praxis/rpn/recognize.py:25 | the returned index ends a maximal run of digits: everything before it is a digit, and the character at it is not |
| Recognizer.MatchFixedCorrect | praxis/rpn/recognize.py:25 | the hand-coded fixed-point matcher accepts exactly digits, a point and two digits |
| Recognizer.MatchScientificSound | praxis/rpn/recognize.py:22-25 | whatever the hand-coded scientific matcher accepts splits into one digit, a point, digits, `e`, a sign and digits |
| Recognizer.MatchScientificComplete | praxis/rpn/recognize.py:22-25 | every string that splits that way is accepted by the hand-coded scientific matcher |
| Recognizer.MatchScientificCorrect | praxis/rpn/recognize.py:22-25 | the hand-coded scientific matcher accepts exactly one digit, a point, digits, `e`, a sign and digits |
| Recognizer.MatchNumberComplete | praxis/rpn/recognize.py:25 | every string of the number regular expression is accepted by the hand-coded matcher |
| Recognizer.MatchNumberCorrect | praxis/rpn/recognize.py:25 | the hand-coded matcher accepts exactly the strings of the number regular expression, with its optional minus |
| Recognizer.Prepared | praxis/rpn/recognize.py:34-35 | the string that is checked never ends with a newline; a line without a trailing newline is checked unchanged; a line with one is cut to a newline-framed infix that neither starts nor ends with a newline |
| Recognizer.MatchNumber | praxis/rpn/recognize.py:25 | no contract: the hand-coded matcher for the number regular expression's body, anchored at both ends; characterised by `Recognizer.MatchNumberCorrect` |
| Recognizer.RegexMatch | praxis/rpn/recognize.py:25 | no contract: the `match` on line 38 of the recogniser with the expression's `$`, which also accepts the body followed by one final newline; characterised by `Recognizer.RecognizeSpec`, which shows that allowance never applies to a prepared line |
| Recognizer.Recognize | praxis/rpn/recognize.py:33-38 | no contract: the recogniser itself, stripping then the four-way test; characterised by `Recognizer.RecognizeSpec` |
| Recognizer.RecognizeSpec | praxis/rpn/recognize.py:33-38 | a line is recognised exactly when, after preparation, it is empty, one of the error lines, or in the number language |
| RecognizerExamples.RecognizeEmptyLines | praxis/rpn/recognize.py:33-37 | the empty string and a lone newline are recognised |
| Recognizer.ErrorsRecognized | praxis/rpn/recognize.py:34-37 | each listed error line is recognised with and without a trailing newline |
| Recognizer.StripOneTrailingNewline | praxis/rpn/recognize.py:34-35 | a line plus one newline prepares to the line itself when it neither starts nor ends with a newline |
| RecognizerExamples.SignedAccepted | praxis/rpn/recognize.py:25-37 | an optional minus followed by a body of either number form is recognised |
| RecognizerExamples.FixedFormAccepted | praxis/rpn/recognize.py:25 | an optional minus, one or more digits, a point and exactly two digits is recognised |
| RecognizerExamples.ScientificFormAccepted | praxis/rpn/recognize.py:22-25 | an optional minus, one digit, a point, one or more digits, `e`, a sign and one or more digits is recognised |
| RecognizerExamples.StripBothEnds | praxis/rpn/recognize.py:34-35 | `"\n\n1.00\n"` is recognised: newlines go from both ends |
| RecognizerExamples.NoStripWithoutTrailingNewline | praxis/rpn/recognize.py:34-35 | `"\n1.00"` is rejected: without a trailing newline nothing is stripped |
| RecognizerExamples.RejectedDecimals | praxis/rpn/recognize.py:36-38 | `"1.5"` (one decimal), `"1"` (no point) and `"+1.00"` (plus sign) are rejected |
| RecognizerExamples.RejectedWords | praxis/rpn/recognize.py:36-38 | `"ERROR: foo"` (not a listed error) and `"abc"` are rejected |
| CrossCheck.ErrorTextsListed | praxis/rpn/recognize.py:8-16 | the interpreter's three error lines are the first three entries of the recogniser's list |
| CrossCheck.ParseErrorRecognized | praxis/rpn.lib.ts:62-64 | every parse error line is recognised, with or without the trailing newline |
| CrossCheck.EvalErrorRecognized | praxis/rpn.lib.ts:112-114 | every evaluation error line, including the never-produced binop variant, is recognised with or without the trailing newline |

## Left out

- `parseFloat` and `isNaN` (`praxis/rpn.lib.ts:75-76`) are the parameter `parseNum`. Their permissive prefix parsing (`"1.5x"` reads as 1.5) and `"Infinity"` are not modelled.
- IEEE-754 arithmetic is not modelled: rounding, NaN, the infinities and division by zero. `+`, `-` and `*` are exact on `real`, and `/` is the parameter `div`.
- `toFixed(2)` result formatting (`praxis/rpn.lib.ts:276`) is not modelled, so whether a printed result is recognised is not stated. Only the error lines are cross-checked.
- `Tokenize` and `ParseProgram` require a line without a newline. The source checks this only with `console.assert`, which logs and carries on.
- `evaluateBinOp`'s unreachable `console.assert(false); return 0` branch has no counterpart, because the operator type is closed.
- `step` and `evaluate` change their argument in place (`praxis/rpn.lib.ts:146`, `:167`): after `evaluate` returns, the caller's array is empty or is the error's program. The model passes `State` values from step to step and `Evaluate` is pure. No caller reads the array afterwards, so the results agree.
- Debug logging (`log`, `DEBUG`, `showStep`) is left out. It has no effect on results.
- Reading stdin, splitting it into lines, printing, and the exit code of `realMain`/`main` (`praxis/rpn.lib.ts:192-289`) are left out as I/O plumbing.
- `main`, `die`, `argv` and the stdin loop of `praxis/rpn/recognize.py:28-50` are left out as CLI plumbing.
- `praxis/rpn.test.ts` is not modelled as code. Its assertions are the example lemmas.
