/** The evaluator's unit-test vectors, as lemmas about concrete programs. */
module EvaluatorExamples {
  import opened Wrappers
  import opened BinOps
  import opened Parser
  import opened Evaluator
  import opened Postfix

  /** An empty program leaves an empty stack, which is an error carrying the empty program. */
  lemma EvaluateEmpty(div: (real, real) -> real)
    ensures Evaluate(div, []) == Failure(EmptyStack([]))
  {
  }

  /** A lone operator fails, and the error carries the operator put back. */
  lemma EvaluateLonePlus(div: (real, real) -> real)
    ensures Evaluate(div, [Op(Add)]) == Failure(EmptyStack([Op(Add)]))
  {
    EvaluateLeadingOperator(div, [Op(Add)]);
  }

  lemma EvaluateZero(div: (real, real) -> real)
    ensures Evaluate(div, [Num(0.0)]) == Success(0.0)
  {
    EvaluatePostfix(div, Lit(0.0));
  }

  lemma EvaluateSums(div: (real, real) -> real)
    ensures Evaluate(div, [Num(0.0), Num(0.0), Op(Add)]) == Success(0.0)
    ensures Evaluate(div, [Num(0.0), Num(1.0), Op(Add)]) == Success(1.0)
  {
    EvaluatePostfix(div, Bin(Add, Lit(0.0), Lit(0.0)));
    assert ToPostfix(Bin(Add, Lit(0.0), Lit(0.0))) == [Num(0.0), Num(0.0), Op(Add)];
    EvaluatePostfix(div, Bin(Add, Lit(0.0), Lit(1.0)));
    assert ToPostfix(Bin(Add, Lit(0.0), Lit(1.0))) == [Num(0.0), Num(1.0), Op(Add)];
  }

  /** `3 4 -` is 3 - 4: the value pushed first is the left operand. */
  lemma EvaluateDifference(div: (real, real) -> real)
    ensures Evaluate(div, [Num(3.0), Num(4.0), Op(Sub)]) == Success(-1.0)
  {
    EvaluatePostfix(div, Bin(Sub, Lit(3.0), Lit(4.0)));
    assert ToPostfix(Bin(Sub, Lit(3.0), Lit(4.0))) == [Num(3.0), Num(4.0), Op(Sub)];
  }

  lemma EvaluateChained(div: (real, real) -> real)
    ensures Evaluate(div, [Num(3.0), Num(4.0), Op(Sub), Num(5.0), Op(Add)]) == Success(4.0)
  {
    var l := Bin(Sub, Lit(3.0), Lit(4.0));
    var e := Bin(Add, l, Lit(5.0));
    assert ToPostfix(l) == [Num(3.0), Num(4.0), Op(Sub)];
    assert ToPostfix(e) == [Num(3.0), Num(4.0), Op(Sub), Num(5.0), Op(Add)];
    assert Denote(div, l) == -1.0;
    EvaluatePostfix(div, e);
  }

  lemma EvaluateNested(div: (real, real) -> real)
    ensures Evaluate(div, [Num(3.0), Num(4.0), Num(5.0), Op(Mul), Op(Sub)]) == Success(-17.0)
  {
    var r := Bin(Mul, Lit(4.0), Lit(5.0));
    var e := Bin(Sub, Lit(3.0), r);
    assert ToPostfix(r) == [Num(4.0), Num(5.0), Op(Mul)];
    assert ToPostfix(e) == [Num(3.0), Num(4.0), Num(5.0), Op(Mul), Op(Sub)];
    assert Denote(div, r) == 20.0;
    EvaluatePostfix(div, e);
  }
}
