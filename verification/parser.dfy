/** Tokenising a line and parsing it into an RPN program. */
module Parser {
  import opened Wrappers
  import opened BinOps
  import opened Messages

  /** One program element: a number literal or an operator. */
  datatype Elem = Num(value: real) | Op(op: BinOp)

  type Program = seq<Elem>

  type Tokens = seq<string>

  /** The only kind of parse error. */
  datatype ParseErrorKind = BadToken

  /**
   * A failed parse: the program built before the bad token and the tokens
   * after it (the bad token itself is dropped).
   */
  datatype ParseError = ParseError(err: ParseErrorKind, prog: Program, rest: Tokens)

  /** The tokens joined back together with single spaces. */
  function Join(ts: Tokens): string
    requires |ts| >= 1
  {
    if |ts| == 1 then ts[0] else ts[0] + " " + Join(ts[1..])
  }

  /**
   * Splits a line on every single space, without trimming and without
   * collapsing repeated spaces. The line must not contain a newline.
   */
  function Tokenize(s: string): (ts: Tokens)
    requires '\n' !in s
    ensures |ts| >= 1
    ensures forall i :: 0 <= i < |ts| ==> ' ' !in ts[i]
  {
    if s == [] then [""]
    else
      var rest := Tokenize(s[1..]);
      if s[0] == ' ' then [""] + rest
      else [[s[0]] + rest[0]] + rest[1..]
  }

  /** Splitting gives one more token than the line has spaces. */
  lemma {:induction false} TokenizeCount(s: string)
    requires '\n' !in s
    ensures |Tokenize(s)| == multiset(s)[' '] + 1
  {
    if s != [] {
      assert s == [s[0]] + s[1..];
      TokenizeCount(s[1..]);
    }
  }

  lemma JoinConsChar(c: char, ts: Tokens)
    requires |ts| >= 1
    ensures Join([[c] + ts[0]] + ts[1..]) == [c] + Join(ts)
  {
    if |ts| > 1 {
      assert ([[c] + ts[0]] + ts[1..])[1..] == ts[1..];
    }
  }

  /** Joining the tokens with single spaces gives the line back. */
  lemma {:induction false} JoinTokenize(s: string)
    requires '\n' !in s
    ensures Join(Tokenize(s)) == s
  {
    if s != [] {
      assert s == [s[0]] + s[1..];
      var rest := Tokenize(s[1..]);
      JoinTokenize(s[1..]);
      if s[0] == ' ' {
        assert ([""] + rest)[1..] == rest;
      } else {
        JoinConsChar(s[0], rest);
      }
    }
  }

  lemma {:induction false} TokenizeSingle(t: string)
    requires '\n' !in t && ' ' !in t
    ensures Tokenize(t) == [t]
  {
    if t != [] {
      assert t == [t[0]] + t[1..];
      TokenizeSingle(t[1..]);
    }
  }

  lemma {:induction false} TokenizeSeparated(t: string, v: string)
    requires '\n' !in t && '\n' !in v && ' ' !in t
    ensures '\n' !in t + " " + v
    ensures Tokenize(t + " " + v) == [t] + Tokenize(v)
  {
    var s := t + " " + v;
    if t == [] {
      assert s == " " + v;
      assert s[0] == ' ' && s[1..] == v;
    } else {
      var u := t[1..] + " " + v;
      assert s[0] == t[0] && s[1..] == u;
      TokenizeSeparated(t[1..], v);
      var rest := Tokenize(u);
      assert rest[0] == t[1..] && rest[1..] == Tokenize(v);
      assert Tokenize(s) == [[t[0]] + t[1..]] + Tokenize(v);
      assert [t[0]] + t[1..] == t;
    }
  }

  lemma {:induction false} JoinNewlineFree(ts: Tokens)
    requires |ts| >= 1
    requires forall i :: 0 <= i < |ts| ==> '\n' !in ts[i]
    ensures '\n' !in Join(ts)
  {
    if |ts| > 1 {
      JoinNewlineFree(ts[1..]);
    }
  }

  /**
   * Tokenising is the inverse of joining: space-free tokens joined with single
   * spaces split back into the same tokens. Together with JoinTokenize this
   * says the split is the unique space-free decomposition of the line.
   */
  lemma {:induction false} TokenizeJoin(ts: Tokens)
    requires |ts| >= 1
    requires forall i :: 0 <= i < |ts| ==> ' ' !in ts[i] && '\n' !in ts[i]
    ensures '\n' !in Join(ts)
    ensures Tokenize(Join(ts)) == ts
  {
    JoinNewlineFree(ts);
    if |ts| == 1 {
      TokenizeSingle(ts[0]);
    } else {
      JoinNewlineFree(ts[1..]);
      TokenizeJoin(ts[1..]);
      TokenizeSeparated(ts[0], Join(ts[1..]));
      assert ts == [ts[0]] + ts[1..];
    }
  }

  /**
   * Classifies one token: operators are tried first, and only a token that is
   * not an operator is handed to the number parser `parseNum` (the source's
   * `parseFloat`, with `None` for NaN). `None` is the bad-token outcome.
   */
  function ParseToken(parseNum: string -> Option<real>, tok: string): (r: Option<Elem>)
    ensures IsOperatorToken(tok) ==> r.Some? && r.value.Op? && Symbol(r.value.op) == tok
    ensures !IsOperatorToken(tok) ==> (r.Some? <==> parseNum(tok).Some?)
    ensures !IsOperatorToken(tok) && r.Some? ==> r.value == Num(parseNum(tok).value)
  {
    match ParseBinOp(tok)
    case Some(op) => Some(Op(op))
    case None =>
      match parseNum(tok)
      case Some(x) => Some(Num(x))
      case None => None
  }

  /** An operator token is classified without consulting the number parser at all. */
  lemma OperatorIgnoresNumberParser(p: string -> Option<real>, q: string -> Option<real>, tok: string)
    requires IsOperatorToken(tok)
    ensures ParseToken(p, tok) == ParseToken(q, tok)
  {
  }

  /** True when token `i` of `toks` is parsed into element `i` of `prog`. */
  predicate ParsedAs(parseNum: string -> Option<real>, toks: Tokens, prog: Program, i: int)
    requires 0 <= i < |toks| && 0 <= i < |prog|
  {
    ParseToken(parseNum, toks[i]) == Some(prog[i])
  }

  /**
   * The parse loop: consumes tokens left to right, appending each parsed
   * token to `prog`, and stops at the first bad token.
   */
  function ParseLoop(parseNum: string -> Option<real>, toks: Tokens, prog: Program): (r: Result<Program, ParseError>)
    ensures r.Success? ==> |r.value| == |prog| + |toks|
    ensures r.Failure? ==>
      && r.error.err == BadToken
      && |prog| <= |r.error.prog| < |prog| + |toks|
      && |r.error.prog| + 1 + |r.error.rest| == |prog| + |toks|
    decreases |toks|
  {
    if toks == [] then Success(prog)
    else
      match ParseToken(parseNum, toks[0])
      case None => Failure(ParseError(BadToken, prog, toks[1..]))
      case Some(e) => ParseLoop(parseNum, toks[1..], prog + [e])
  }

  /** `q` holds, in order, the parses of the first `|q|` tokens of `toks`. */
  predicate GoodPrefix(parseNum: string -> Option<real>, toks: Tokens, q: Program)
  {
    && |q| <= |toks|
    && forall i :: 0 <= i < |q| ==> ParsedAs(parseNum, toks, q, i)
  }

  /** A good token in front of a parsed run of tokens extends the run by one. */
  lemma GoodPrefixCons(parseNum: string -> Option<real>, toks: Tokens, e: Elem, q: Program)
    requires |toks| >= 1 && ParseToken(parseNum, toks[0]) == Some(e)
    requires GoodPrefix(parseNum, toks[1..], q)
    ensures GoodPrefix(parseNum, toks, [e] + q)
  {
    forall i | 0 <= i < |q| + 1
      ensures ParsedAs(parseNum, toks, [e] + q, i)
    {
      if i > 0 {
        assert ParsedAs(parseNum, toks[1..], q, i - 1);
        assert toks[i] == toks[1..][i - 1];
        assert ([e] + q)[i] == q[i - 1];
      }
    }
  }

  /** A successful parse loop appends the parse of every token, in order. */
  lemma {:induction false} ParseLoopSuccess(parseNum: string -> Option<real>, toks: Tokens, prog: Program)
    requires ParseLoop(parseNum, toks, prog).Success?
    ensures var out := ParseLoop(parseNum, toks, prog).value;
      && out[..|prog|] == prog
      && GoodPrefix(parseNum, toks, out[|prog|..])
    decreases |toks|
  {
    var out := ParseLoop(parseNum, toks, prog).value;
    if toks == [] {
      assert out[|prog|..] == [];
    } else {
      var e := ParseToken(parseNum, toks[0]).value;
      var prog' := prog + [e];
      assert out == ParseLoop(parseNum, toks[1..], prog').value;
      ParseLoopSuccess(parseNum, toks[1..], prog');
      assert out[..|prog|] == out[..|prog'|][..|prog|];
      assert out[|prog|..] == [e] + out[|prog'|..];
      GoodPrefixCons(parseNum, toks, e, out[|prog'|..]);
    }
  }

  /**
   * A failed parse loop stops at the first bad token: its program appends the
   * parses of the tokens before it, and its rest is the tokens after it.
   */
  lemma {:induction false} ParseLoopFailure(parseNum: string -> Option<real>, toks: Tokens, prog: Program)
    requires ParseLoop(parseNum, toks, prog).Failure?
    ensures var err := ParseLoop(parseNum, toks, prog).error;
      var k := |err.prog| - |prog|;
      && err.prog[..|prog|] == prog
      && GoodPrefix(parseNum, toks, err.prog[|prog|..])
      && ParseToken(parseNum, toks[k]) == None
      && err.rest == toks[k + 1..]
    decreases |toks|
  {
    var err := ParseLoop(parseNum, toks, prog).error;
    if ParseToken(parseNum, toks[0]).None? {
      assert err.prog[|prog|..] == [];
    } else {
      var e := ParseToken(parseNum, toks[0]).value;
      var prog' := prog + [e];
      assert err == ParseLoop(parseNum, toks[1..], prog').error;
      ParseLoopFailure(parseNum, toks[1..], prog');
      assert err.prog[..|prog|] == err.prog[..|prog'|][..|prog|];
      assert err.prog[|prog|..] == [e] + err.prog[|prog'|..];
      GoodPrefixCons(parseNum, toks, e, err.prog[|prog'|..]);
      var k := |err.prog| - |prog|;
      assert toks[k] == toks[1..][k - 1];
      assert toks[k + 1..] == toks[1..][k..];
    }
  }

  /** Parses one line (which must not contain a newline) into a program. */
  function ParseProgram(parseNum: string -> Option<real>, s: string): (r: Result<Program, ParseError>)
    requires '\n' !in s
    ensures r.Success? ==>
      && |r.value| == |Tokenize(s)|
      && GoodPrefix(parseNum, Tokenize(s), r.value)
    ensures r.Failure? ==>
      var k := |r.error.prog|;
      && k < |Tokenize(s)|
      && GoodPrefix(parseNum, Tokenize(s), r.error.prog)
      && ParseToken(parseNum, Tokenize(s)[k]) == None
      && r.error.rest == Tokenize(s)[k + 1..]
      && |r.error.prog| + 1 + |r.error.rest| == |Tokenize(s)|
  {
    var r := ParseLoop(parseNum, Tokenize(s), []);
    if r.Success? then
      ParseLoopSuccess(parseNum, Tokenize(s), []);
      assert r.value[0..] == r.value;
      r
    else
      ParseLoopFailure(parseNum, Tokenize(s), []);
      assert r.error.prog[0..] == r.error.prog;
      r
  }

  /** A line parses successfully exactly when every one of its tokens is good. */
  lemma {:induction false} ParseSucceedsIff(parseNum: string -> Option<real>, s: string)
    requires '\n' !in s
    ensures ParseProgram(parseNum, s).Success? <==>
      forall i :: 0 <= i < |Tokenize(s)| ==> ParseToken(parseNum, Tokenize(s)[i]).Some?
  {
    var toks := Tokenize(s);
    var r := ParseProgram(parseNum, s);
    if r.Failure? {
      var k := |r.error.prog|;
      assert k < |Tokenize(s)| && !ParseToken(parseNum, Tokenize(s)[k]).Some?;
    } else {
      forall i | 0 <= i < |toks|
        ensures ParseToken(parseNum, toks[i]).Some?
      {
        assert ParsedAs(parseNum, toks, r.value, i);
      }
    }
  }

  /**
   * A repeated space produces an empty token; when the number parser rejects
   * the empty string (as `parseFloat` does), the whole line fails to parse.
   */
  lemma DoubleSpaceFails(parseNum: string -> Option<real>, s: string, j: nat)
    requires '\n' !in s
    requires j + 1 < |s| && s[j] == ' ' && s[j + 1] == ' '
    requires parseNum("") == None
    ensures ParseProgram(parseNum, s).Failure?
  {
    var toks := EmptyTokenOfDoubleSpace(s, j);
    ParseSucceedsIff(parseNum, s);
    var i :| 0 <= i < |toks| && toks[i] == "";
    assert ParseToken(parseNum, toks[i]) == None;
  }

  lemma {:induction false} EmptyTokenOfDoubleSpace(s: string, j: nat) returns (toks: Tokens)
    requires '\n' !in s
    requires j + 1 < |s| && s[j] == ' ' && s[j + 1] == ' '
    ensures toks == Tokenize(s)
    ensures exists i :: 1 <= i < |toks| && toks[i] == ""
    decreases j
  {
    toks := Tokenize(s);
    assert s == [s[0]] + s[1..];
    var rest := Tokenize(s[1..]);
    if j == 0 {
      assert s[1..][0] == ' ';
      assert (s[1..] == [s[1..][0]] + s[2..]);
      assert rest == [""] + Tokenize(s[2..]);
      assert toks == [""] + rest;
      assert toks[1] == "";
    } else {
      var rt := EmptyTokenOfDoubleSpace(s[1..], j - 1);
      var i :| 1 <= i < |rt| && rt[i] == "";
      if s[0] == ' ' {
        assert toks[i + 1] == "";
      } else {
        // Only the first token of `rest` grows by a character.
        assert toks[i] == rest[i];
      }
    }
  }

  /** The text of a parse error line. */
  function ShowParseError(e: ParseError): (m: string)
    ensures m == ErrorMessage(ParseErrorBadToken)
  {
    match e.err
    case BadToken => ErrorMessage(ParseErrorBadToken)
  }

  /** The token that spells one element, given a spelling `show` for numbers. */
  function ShowElem(show: real -> string, e: Elem): string {
    match e
    case Num(x) => show(x)
    case Op(op) => Symbol(op)
  }

  /** A program spelled back into a line of space-separated tokens. */
  function ShowProgram(show: real -> string, p: Program): (s: string)
    requires |p| >= 1
  {
    Join(seq(|p|, i requires 0 <= i < |p| => ShowElem(show, p[i])))
  }

  /**
   * Round trip: a non-empty program whose numbers are spelled by `show` in a
   * way the number parser reads back (with no space, no newline and no clash
   * with an operator spelling) parses back to itself.
   */
  lemma ParseShowProgram(parseNum: string -> Option<real>, show: real -> string, p: Program)
    requires |p| >= 1
    requires forall i :: 0 <= i < |p| && p[i].Num? ==>
      var t := show(p[i].value);
      && ' ' !in t && '\n' !in t && !IsOperatorToken(t)
      && parseNum(t) == Some(p[i].value)
    ensures '\n' !in ShowProgram(show, p)
    ensures ParseProgram(parseNum, ShowProgram(show, p)) == Success(p)
  {
    var ts := seq(|p|, i requires 0 <= i < |p| => ShowElem(show, p[i]));
    forall i | 0 <= i < |ts|
      ensures ' ' !in ts[i] && '\n' !in ts[i]
      ensures ParseToken(parseNum, ts[i]) == Some(p[i])
    {
      if p[i].Op? {
        ParseSymbol(p[i].op);
      }
    }
    assert ShowProgram(show, p) == Join(ts);
    TokenizeJoin(ts);
    var r := ParseProgram(parseNum, ShowProgram(show, p));
    forall i | 0 <= i < |p|
      ensures r.value[i] == p[i]
    {
      assert ParsedAs(parseNum, ts, r.value, i);
    }
    assert r.value == p;
  }
}
