/**
 * The meaning of RPN: a program written in postfix order from an arithmetic
 * expression evaluates to the expression's value. This fixes the operand
 * order: the value pushed earlier is the left operand.
 */
module Postfix {
  import opened Wrappers
  import opened BinOps
  import opened Parser
  import opened Evaluator

  datatype Expr = Lit(value: real) | Bin(op: BinOp, left: Expr, right: Expr)

  /** The value of an expression, with `div` for division. */
  function Denote(div: (real, real) -> real, e: Expr): real {
    match e
    case Lit(x) => x
    case Bin(op, l, r) => EvaluateBinOp(div, op, Denote(div, l), Denote(div, r))
  }

  /** The expression in postfix order: both operands, then the operator. */
  function ToPostfix(e: Expr): Program {
    match e
    case Lit(x) => [Num(x)]
    case Bin(op, l, r) => ToPostfix(l) + ToPostfix(r) + [Op(op)]
  }

  /** Running an expression's postfix program pushes exactly its value and consumes nothing below. */
  lemma {:induction false} ExecPostfix(div: (real, real) -> real, e: Expr, rest: Program, st: Stack)
    ensures Exec(div, State(ToPostfix(e) + rest, st)) == Exec(div, State(rest, [Denote(div, e)] + st))
  {
    match e
    case Lit(x) =>
      assert ([Num(x)] + rest)[1..] == rest;
    case Bin(op, l, r) =>
      var pl, pr := ToPostfix(l), ToPostfix(r);
      var dl, dr := Denote(div, l), Denote(div, r);
      assert ToPostfix(e) + rest == pl + (pr + ([Op(op)] + rest));
      ExecPostfix(div, l, pr + ([Op(op)] + rest), st);
      ExecPostfix(div, r, [Op(op)] + rest, [dl] + st);
      ApplyOperator(div, op, rest, dl, dr, st);
  }

  /** An operator meeting `dr` above `dl` replaces both with `dl <op> dr`. */
  lemma ApplyOperator(div: (real, real) -> real, op: BinOp, rest: Program, dl: real, dr: real, st: Stack)
    ensures Exec(div, State([Op(op)] + rest, [dr] + ([dl] + st)))
         == Exec(div, State(rest, [EvaluateBinOp(div, op, dl, dr)] + st))
  {
    var s := State([Op(op)] + rest, [dr] + ([dl] + st));
    assert ([Op(op)] + rest)[1..] == rest;
    assert s.stack[0] == dr && s.stack[1] == dl && s.stack[2..] == st;
  }

  /** A postfix program evaluates to the value of its expression. */
  lemma EvaluatePostfix(div: (real, real) -> real, e: Expr)
    ensures Evaluate(div, ToPostfix(e)) == Success(Denote(div, e))
  {
    ExecPostfix(div, e, [], []);
    assert ToPostfix(e) + [] == ToPostfix(e);
    assert Exec(div, State([], [Denote(div, e)])) == Success([Denote(div, e)]);
  }

  /** Several expressions written one after another, each in postfix order. */
  function Flatten(es: seq<Expr>): Program {
    if es == [] then [] else ToPostfix(es[0]) + Flatten(es[1..])
  }

  /**
   * Running several postfix expressions in a row pushes their values in
   * order, so the last one ends on top, and leaves the stack below alone.
   */
  lemma {:induction false} ExecFlatten(div: (real, real) -> real, es: seq<Expr>, st: Stack)
    requires |es| >= 1
    ensures Exec(div, State(Flatten(es), st)).Success?
    ensures |Exec(div, State(Flatten(es), st)).value| == |es| + |st|
    ensures Exec(div, State(Flatten(es), st)).value[0] == Denote(div, es[|es| - 1])
    ensures Exec(div, State(Flatten(es), st)).value[|es|..] == st
    ensures forall i :: 0 <= i < |es| ==>
      Exec(div, State(Flatten(es), st)).value[i] == Denote(div, es[|es| - 1 - i])
    decreases |es|
  {
    var d := Denote(div, es[0]);
    ExecPostfix(div, es[0], Flatten(es[1..]), st);
    if |es| == 1 {
      assert Flatten(es[1..]) == [];
      assert ToPostfix(es[0]) + [] == ToPostfix(es[0]);
      assert Exec(div, State([], [d] + st)) == Success([d] + st);
    } else {
      ExecFlatten(div, es[1..], [d] + st);
      var fin := Exec(div, State(Flatten(es[1..]), [d] + st)).value;
      assert fin[|es|..] == fin[|es| - 1..][1..];
      assert fin[|es| - 1] == fin[|es| - 1..][0];
      forall i | 0 <= i < |es| - 1
        ensures fin[i] == Denote(div, es[|es| - 1 - i])
      {
        assert es[1..][|es[1..]| - 1 - i] == es[|es| - 1 - i];
      }
    }
  }

  /**
   * Values left below the top when the program ends are ignored: several
   * expressions in a row evaluate to the last one's value.
   */
  lemma {:induction false} EvaluateIgnoresDeeper(div: (real, real) -> real, es: seq<Expr>)
    requires |es| >= 1
    ensures Evaluate(div, Flatten(es)) == Success(Denote(div, es[|es| - 1]))
  {
    ExecFlatten(div, es, []);
  }

  /** What a balanced program demands of its first element and leaves for the rest. */
  lemma BalancedTail(p: Program, d: int)
    requires p != [] && Balanced(p, d)
    ensures p[0].Op? ==> d >= 2
    ensures Balanced(p[1..], d + Delta(p[0]))
  {
    assert p == [p[0]] + p[1..];
    BalancedCons(p[0], p[1..], d);
  }

  /**
   * One element read onto a stack of expressions kept oldest first: a number
   * adds a literal at the end, and an operator replaces the last two
   * entries `l`, `r` by `l <op> r`.
   */
  function Shift(e: Elem, stk: seq<Expr>): (r: seq<Expr>)
    requires e.Op? ==> |stk| >= 2
    ensures |r| == |stk| + Delta(e)
  {
    match e
    case Num(x) => stk + [Lit(x)]
    case Op(op) =>
      var n := |stk|;
      stk[..n - 2] + [Bin(op, stk[n - 2], stk[n - 1])]
  }

  /** Reads a whole program back into expressions, one `Shift` per element. */
  function Build(p: Program, stk: seq<Expr>): (r: seq<Expr>)
    requires Balanced(p, |stk|)
    ensures |r| == |stk| + Depth(p)
    decreases |p|
  {
    if p == [] then stk
    else
      BalancedTail(p, |stk|);
      Build(p[1..], Shift(p[0], stk))
  }

  /** Writing two runs of expressions one after another. */
  lemma {:induction false} FlattenAppend(a: seq<Expr>, b: seq<Expr>)
    ensures Flatten(a + b) == Flatten(a) + Flatten(b)
    decreases |a|
  {
    if a == [] {
      assert a + b == b;
    } else {
      assert (a + b)[0] == a[0] && (a + b)[1..] == a[1..] + b;
      FlattenAppend(a[1..], b);
      calc {
        Flatten(a + b);
        ToPostfix(a[0]) + Flatten(a[1..] + b);
        ToPostfix(a[0]) + (Flatten(a[1..]) + Flatten(b));
        (ToPostfix(a[0]) + Flatten(a[1..])) + Flatten(b);
      }
    }
  }

  /** A single expression written out on its own. */
  lemma FlattenSingle(e: Expr)
    ensures Flatten([e]) == ToPostfix(e)
  {
    assert [e][1..] == [];
  }

  /**
   * Reading one element onto a run of expressions adds exactly that element
   * to the run's text.
   */
  lemma FlattenShift(e: Elem, stk: seq<Expr>)
    requires e.Op? ==> |stk| >= 2
    ensures Flatten(Shift(e, stk)) == Flatten(stk) + [e]
  {
    match e
    case Num(x) =>
      FlattenPushLit(stk, x);
    case Op(op) =>
      var n := |stk|;
      assert stk == stk[..n - 2] + [stk[n - 2], stk[n - 1]];
      FlattenCombine(stk[..n - 2], op, stk[n - 2], stk[n - 1]);
  }

  /** Adding a literal at the end of a run of expressions adds its number. */
  lemma FlattenPushLit(stk: seq<Expr>, x: real)
    ensures Flatten(stk + [Lit(x)]) == Flatten(stk) + [Num(x)]
  {
    FlattenAppend(stk, [Lit(x)]);
    FlattenSingle(Lit(x));
  }

  /**
   * Joining the last two expressions of a run under an operator adds that
   * operator at the end of the text.
   */
  lemma FlattenCombine(pre: seq<Expr>, op: BinOp, l: Expr, r: Expr)
    ensures Flatten(pre + [l, r]) + [Op(op)] == Flatten(pre + [Bin(op, l, r)])
  {
    assert [l, r] == [l] + [r];
    FlattenAppend(pre, [l, r]);
    FlattenAppend([l], [r]);
    FlattenSingle(l);
    FlattenSingle(r);
    FlattenAppend(pre, [Bin(op, l, r)]);
    FlattenSingle(Bin(op, l, r));
  }

  /**
   * Reading a program onto a stack of expressions loses nothing: writing the
   * resulting expressions out gives the old stack's text followed by the
   * program.
   */
  lemma {:induction false} BuildFlatten(p: Program, stk: seq<Expr>)
    requires Balanced(p, |stk|)
    ensures Flatten(stk) + p == Flatten(Build(p, stk))
    decreases |p|
  {
    if p != [] {
      BalancedTail(p, |stk|);
      FlattenShift(p[0], stk);
      BuildFlatten(p[1..], Shift(p[0], stk));
      assert Flatten(stk) + p == Flatten(stk) + [p[0]] + p[1..];
    }
  }

  /**
   * Every program whose operators always find two values is a run of
   * postfix expressions, one per value it leaves on the stack.
   */
  lemma Decompose(p: Program) returns (es: seq<Expr>)
    requires Balanced(p, 0)
    ensures |es| == Depth(p)
    ensures Flatten(es) == p
  {
    es := Build(p, []);
    BuildFlatten(p, []);
  }

  /**
   * What a successful evaluation returns: the value of the last expression
   * the program is made of.
   */
  lemma EvaluateValue(div: (real, real) -> real, p: Program)
    requires Evaluate(div, p).Success?
    ensures Balanced(p, 0) && Depth(p) >= 1
    ensures Evaluate(div, p).value == Denote(div, Build(p, [])[Depth(p) - 1])
  {
    var es := Build(p, []);
    BuildFlatten(p, []);
    assert Flatten([]) + p == p;
    EvaluateIgnoresDeeper(div, es);
  }

  /** For instance, `[1, 2, 3]` evaluates to 3. */
  lemma EvaluateThreeNumbers(div: (real, real) -> real)
    ensures Evaluate(div, [Num(1.0), Num(2.0), Num(3.0)]) == Success(3.0)
  {
    var es := [Lit(1.0), Lit(2.0), Lit(3.0)];
    assert es[1..] == [Lit(2.0), Lit(3.0)] && es[1..][1..] == [Lit(3.0)] && es[1..][1..][1..] == [];
    assert Flatten(es) == [Num(1.0), Num(2.0), Num(3.0)];
    EvaluateIgnoresDeeper(div, es);
  }
}
