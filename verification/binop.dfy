/** The four binary operators of the RPN language, their spelling and their arithmetic. */
module BinOps {
  import opened Wrappers

  datatype BinOp = Add | Sub | Mul | Div

  /** The token that spells an operator. */
  function Symbol(op: BinOp): (s: string)
    ensures |s| == 1
  {
    match op
    case Add => "+"
    case Sub => "-"
    case Mul => "*"
    case Div => "/"
  }

  /** True of exactly the four operator spellings. */
  predicate IsOperatorToken(s: string) {
    s == "+" || s == "-" || s == "*" || s == "/"
  }

  /** Classifies a token as an operator; any other string is "not an operator". */
  function ParseBinOp(s: string): (r: Option<BinOp>)
    ensures r.Some? <==> IsOperatorToken(s)
    ensures r.Some? ==> Symbol(r.value) == s
  {
    if s == "+" then Some(Add)
    else if s == "-" then Some(Sub)
    else if s == "*" then Some(Mul)
    else if s == "/" then Some(Div)
    else None
  }

  /** Spelling an operator and classifying the spelling gives the operator back. */
  lemma ParseSymbol(op: BinOp)
    ensures ParseBinOp(Symbol(op)) == Some(op)
  {
  }

  /** The classifier's unit-test vectors: `+` and `*` are recognised, `_` is not. */
  lemma ParseBinOpExamples()
    ensures ParseBinOp("+") == Some(Add)
    ensures ParseBinOp("*") == Some(Mul)
    ensures ParseBinOp("_") == None
  {
  }

  /**
   * `left <op> right`: the operator semantics shared by the evaluator's step
   * and by the meaning of expressions. Addition, subtraction and
   * multiplication are exact on reals; the floating-point quotient is the
   * parameter `div`.
   */
  function EvaluateBinOp(div: (real, real) -> real, op: BinOp, left: real, right: real): real {
    match op
    case Add => left + right
    case Sub => left - right
    case Mul => left * right
    case Div => div(left, right)
  }
}
