/** Evaluating an RPN program against a stack whose top is index 0. */
module Evaluator {
  import opened Wrappers
  import opened BinOps
  import opened Messages
  import opened Parser

  /** The value stack; index 0 is the top (push is `unshift`, pop is `shift`). */
  type Stack = seq<real>

  /** The evaluator's state: what is left of the program, and the stack. */
  datatype State = State(prog: Program, stack: Stack)

  /**
   * The two error variants. `BinopStack` is part of the interface but is never
   * produced; a short stack at an operator and an empty stack at the end
   * both give `EmptyStack`, carrying the unconsumed program.
   */
  datatype EvalError = BinopStack(binOp: BinOp) | EmptyStack(prog: Program)

  /** How one element changes the stack height: a number pushes, an operator pops two and pushes one. */
  function Delta(e: Elem): int {
    if e.Num? then 1 else -1
  }

  /** The net change of stack height over a whole program. */
  function Depth(p: Program): int {
    if p == [] then 0 else Delta(p[0]) + Depth(p[1..])
  }

  /**
   * Every operator of `p` finds at least two values on a stack that starts
   * `d` high. This speaks only of heights, never of values.
   */
  predicate Balanced(p: Program, d: int) {
    forall k :: 0 <= k < |p| && p[k].Op? ==> d + Depth(p[..k]) >= 2
  }

  /**
   * One step: a number is pushed; an operator pops `a` (the top) and then
   * `b`, and pushes `b <op> a`. With fewer than two values the operator is
   * left at the front of the program and the step fails. An exhausted
   * program is left as it is.
   */
  function Step(div: (real, real) -> real, s: State): (r: Result<State, EvalError>)
    ensures s.prog == [] ==> r == Success(s)
    ensures s.prog != [] ==> (r.Failure? <==> s.prog[0].Op? && |s.stack| < 2)
    ensures r.Failure? ==> r.error == EmptyStack(s.prog)
    ensures s.prog != [] && r.Success? ==>
      && r.value.prog == s.prog[1..]
      && |r.value.stack| == |s.stack| + Delta(s.prog[0])
    ensures s.prog != [] && s.prog[0].Num? && r.Success? ==>
      r.value.stack[0] == s.prog[0].value && r.value.stack[1..] == s.stack
    ensures s.prog != [] && s.prog[0].Op? && r.Success? ==>
      && r.value.stack[0] == EvaluateBinOp(div, s.prog[0].op, s.stack[1], s.stack[0])
      && r.value.stack[1..] == s.stack[2..]
  {
    if s.prog == [] then Success(s)
    else
      match s.prog[0]
      case Num(x) => Success(State(s.prog[1..], [x] + s.stack))
      case Op(op) =>
        if |s.stack| < 2 then Failure(EmptyStack(s.prog))
        else
          var a := s.stack[0];
          var b := s.stack[1];
          Success(State(s.prog[1..], [EvaluateBinOp(div, op, b, a)] + s.stack[2..]))
  }

  /**
   * Runs the program to exhaustion and returns the final stack, or the first
   * error. Each successful step consumes one element, so this terminates.
   */
  function Exec(div: (real, real) -> real, s: State): (r: Result<Stack, EvalError>)
    ensures r.Success? ==> |r.value| == |s.stack| + Depth(s.prog)
    ensures r.Failure? ==> r.error.EmptyStack? && 1 <= |r.error.prog| <= |s.prog|
    decreases |s.prog|
  {
    if s.prog == [] then Success(s.stack)
    else
      match Step(div, s)
      case Failure(e) => Failure(e)
      case Success(s') => Exec(div, s')
  }

  /**
   * `rest` is where a run from `s` stops: a non-empty suffix of the program
   * that starts with an operator, where every operator before it found two
   * values and the stack then holds fewer than two.
   */
  predicate StoppedAt(s: State, rest: Program) {
    var k := |s.prog| - |rest|;
    && 1 <= |rest| <= |s.prog|
    && rest[0].Op?
    && rest == s.prog[k..]
    && Balanced(s.prog[..k], |s.stack|)
    && |s.stack| + Depth(s.prog[..k]) < 2
  }

  /** Where a run stops is unchanged by a successful step taken before it. */
  lemma StoppedAtCons(s: State, x: Elem, s': State, rest: Program)
    requires s.prog == [x] + s'.prog
    requires |s'.stack| == |s.stack| + Delta(x)
    requires x.Op? ==> |s.stack| >= 2
    requires StoppedAt(s', rest)
    ensures StoppedAt(s, rest)
  {
    var k' := |s'.prog| - |rest|;
    var q := s'.prog[..k'];
    assert s'.prog[k'..] == s.prog[k' + 1..];
    assert s.prog[..k' + 1] == [x] + q;
    assert ([x] + q)[1..] == q;
    BalancedCons(x, q, |s.stack|);
  }

  /**
   * A failed run stops at the first operator that finds fewer than two
   * values, and the error carries the unconsumed suffix of the program from
   * that operator on.
   */
  lemma {:induction false} ExecFailure(div: (real, real) -> real, s: State)
    ensures Exec(div, s).Failure? ==> StoppedAt(s, Exec(div, s).error.prog)
    decreases |s.prog|
  {
    if s.prog != [] {
      var r := Step(div, s);
      if r.Failure? {
        assert s.prog[0..] == s.prog;
        assert s.prog[..0] == [];
      } else {
        var s' := r.value;
        assert Exec(div, s) == Exec(div, s');
        ExecFailure(div, s');
        if Exec(div, s').Failure? {
          assert s.prog == [s.prog[0]] + s'.prog;
          StoppedAtCons(s, s.prog[0], s', Exec(div, s').error.prog);
        }
      }
    }
  }

  lemma {:induction false} BalancedCons(x: Elem, q: Program, d: int)
    ensures Balanced([x] + q, d) <==> (x.Op? ==> d >= 2) && Balanced(q, d + Delta(x))
  {
    var p := [x] + q;
    assert p[..0] == [];
    forall k | 1 <= k <= |q|
      ensures p[k] == q[k - 1] && Depth(p[..k]) == Delta(x) + Depth(q[..k - 1])
    {
      assert p[..k][0] == x && p[..k][1..] == q[..k - 1];
    }
    if Balanced(p, d) {
      forall k | 0 <= k < |q| && q[k].Op?
        ensures d + Delta(x) + Depth(q[..k]) >= 2
      {
        assert p[k + 1].Op?;
      }
    }
    if (x.Op? ==> d >= 2) && Balanced(q, d + Delta(x)) {
      forall k | 0 <= k < |p| && p[k].Op?
        ensures d + Depth(p[..k]) >= 2
      {
        if k > 0 {
          assert q[k - 1].Op?;
        }
      }
    }
  }

  /** A run finishes without error exactly when the program is balanced for the starting stack height. */
  lemma {:induction false} ExecSucceedsIff(div: (real, real) -> real, s: State)
    ensures Exec(div, s).Success? <==> Balanced(s.prog, |s.stack|)
    decreases |s.prog|
  {
    if s.prog != [] {
      var x := s.prog[0];
      assert s.prog == [x] + s.prog[1..];
      BalancedCons(x, s.prog[1..], |s.stack|);
      var r := Step(div, s);
      if r.Success? {
        ExecSucceedsIff(div, r.value);
      }
    }
  }

  /**
   * Evaluates a program from an empty stack; the result is the top of the
   * final stack, and values below it are ignored.
   */
  function Evaluate(div: (real, real) -> real, prog: Program): (r: Result<real, EvalError>)
    ensures r.Failure? ==> r.error.EmptyStack?
    ensures r.Failure? && r.error.prog != [] ==>
      var k := |prog| - |r.error.prog|;
      && r.error.prog[0].Op?
      && 0 <= k < |prog|
      && r.error.prog == prog[k..]
      && Balanced(prog[..k], 0)
      && Depth(prog[..k]) < 2
    ensures r.Success? <==> Balanced(prog, 0) && Depth(prog) >= 1
    ensures r == Failure(EmptyStack([])) <==> Balanced(prog, 0) && Depth(prog) == 0
  {
    ExecSucceedsIff(div, State(prog, []));
    ExecFailure(div, State(prog, []));
    match Exec(div, State(prog, []))
    case Failure(e) => Failure(e)
    case Success(st) =>
      if st == [] then Failure(EmptyStack([])) else Success(st[0])
  }

  /**
   * Running a concatenation runs the first part and then the second from the
   * stack the first part left; an error in the first part carries the rest of
   * the first part followed by all of the second.
   */
  lemma {:induction false} ExecAppend(div: (real, real) -> real, p1: Program, p2: Program, st: Stack)
    ensures Exec(div, State(p1 + p2, st)) ==
      match Exec(div, State(p1, st))
      case Success(st') => Exec(div, State(p2, st'))
      case Failure(e) => Failure(EmptyStack(e.prog + p2))
    decreases |p1|
  {
    if p1 == [] {
      assert p1 + p2 == p2;
    } else {
      var s := State(p1 + p2, st);
      assert (p1 + p2)[0] == p1[0] && (p1 + p2)[1..] == p1[1..] + p2;
      var r := Step(div, State(p1, st));
      if r.Success? {
        assert Step(div, s) == Success(State(p1[1..] + p2, r.value.stack));
        ExecAppend(div, p1[1..], p2, r.value.stack);
      }
    }
  }

  /**
   * An operator that meets an empty stack fails at once, and the error carries
   * the operator followed by the whole unconsumed remainder.
   */
  lemma EvaluateLeadingOperator(div: (real, real) -> real, p: Program)
    requires |p| >= 1 && p[0].Op?
    ensures Evaluate(div, p) == Failure(EmptyStack(p))
  {
    assert Step(div, State(p, [])) == Failure(EmptyStack(p));
  }

  /** The evaluator as the source writes it: a loop of steps, then one pop. */
  method EvaluateLoop(div: (real, real) -> real, prog: Program) returns (r: Result<real, EvalError>)
    ensures r == Evaluate(div, prog)
  {
    var s := State(prog, []);
    while |s.prog| > 0
      invariant Exec(div, s) == Exec(div, State(prog, []))
      decreases |s.prog|
    {
      var e := Step(div, s);
      if e.Failure? {
        return Failure(e.error);
      }
      s := e.value;
    }
    if |s.stack| > 0 {
      return Success(s.stack[0]);
    }
    return Failure(EmptyStack(s.prog));
  }

  /** The text of an evaluation error line. */
  function ShowEvalError(e: EvalError): (m: string)
    ensures e.BinopStack? ==> m == ErrorMessage(EvalErrorBinopStack)
    ensures e.EmptyStack? ==> m == ErrorMessage(EvalErrorEmptyStack)
  {
    match e
    case BinopStack(_) => ErrorMessage(EvalErrorBinopStack)
    case EmptyStack(_) => ErrorMessage(EvalErrorEmptyStack)
  }

  /** The message alone tells the two error variants apart. */
  lemma ShowEvalErrorDistinguishes(e1: EvalError, e2: EvalError)
    ensures ShowEvalError(e1) == ShowEvalError(e2) <==> e1.EmptyStack? == e2.EmptyStack?
  {
    ErrorMessageInjective(EvalErrorBinopStack, EvalErrorEmptyStack);
    assert EvalErrorBinopStack[0] != EvalErrorEmptyStack[0];
  }
}
