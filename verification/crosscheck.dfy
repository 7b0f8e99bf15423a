/**
 * The interpreter's error lines against the recogniser: every error line the
 * interpreter can print is acceptable output, with or without the newline
 * the printer appends.
 */
module CrossCheck {
  import opened Messages
  import opened Parser
  import opened Evaluator
  import opened Recognizer

  /** The interpreter's error texts are the first three of the recogniser's list. */
  lemma ErrorTextsListed()
    ensures ErrorMessage(ParseErrorBadToken) == Errors()[0]
    ensures ErrorMessage(EvalErrorBinopStack) == Errors()[1]
    ensures ErrorMessage(EvalErrorEmptyStack) == Errors()[2]
  {
  }

  /** Every parse error line is recognised. */
  lemma ParseErrorRecognized(e: ParseError)
    ensures Recognize(ShowParseError(e))
    ensures Recognize(ShowParseError(e) + "\n")
  {
    ErrorTextsListed();
    ErrorsRecognized(0);
  }

  /** Every evaluation error line is recognised, including the variant that is never produced. */
  lemma EvalErrorRecognized(e: EvalError)
    ensures Recognize(ShowEvalError(e))
    ensures Recognize(ShowEvalError(e) + "\n")
  {
    ErrorTextsListed();
    ErrorsRecognized(if e.BinopStack? then 1 else 2);
  }
}
