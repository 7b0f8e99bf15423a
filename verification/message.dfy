/** Output messages and the error texts of the RPN interpreter. */
module Messages {

  const ErrorPrefix: string := "ERROR: "

  /** The single parse-error text. */
  const ParseErrorBadToken: string := "Bad token, not one of +, -, *, /"

  /** Declared by the interpreter, but no evaluation ever produces it. */
  const EvalErrorBinopStack: string := "Just a binop on the stack."

  const EvalErrorEmptyStack: string := "Empty stack!"

  /** An error line: the prefix followed by the text. */
  function ErrorMessage(s: string): (m: string)
    ensures |m| == |ErrorPrefix| + |s|
    ensures m[..|ErrorPrefix|] == ErrorPrefix && m[|ErrorPrefix|..] == s
  {
    ErrorPrefix + s
  }

  /** Two error lines agree exactly when their texts agree. */
  lemma ErrorMessageInjective(s: string, t: string)
    ensures ErrorMessage(s) == ErrorMessage(t) <==> s == t
  {
    if ErrorMessage(s) == ErrorMessage(t) {
      assert s == ErrorMessage(s)[|ErrorPrefix|..];
    }
  }
}
