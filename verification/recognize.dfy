/**
 * The output-line recogniser: a line is acceptable when it is empty, one of
 * the fixed error lines, or a number in fixed-point or scientific form.
 */
module Recognizer {

  const ParseErrors: seq<string> := ["Bad token, not one of +, -, *, /"]

  const EvalErrors: seq<string> := [
    "Just a binop on the stack.",
    "Empty stack!",
    "Divide by zero!",
    "No program!"
  ]

  /** Every listed message with "ERROR: " in front, parse errors first. */
  function Errors(): (es: seq<string>)
    ensures |es| == 5
    ensures forall i :: 0 <= i < 5 ==>
      && |es[i]| > 7
      && es[i][..7] == "ERROR: "
      && es[i][7..] == (ParseErrors + EvalErrors)[i]
  {
    var msgs := ParseErrors + EvalErrors;
    seq(|msgs|, i requires 0 <= i < |msgs| => "ERROR: " + msgs[i])
  }

  // ---------------------------------------------------------------------------
  // Stripping newlines

  predicate AllNewlines(s: string) {
    forall i :: 0 <= i < |s| ==> s[i] == '\n'
  }

  /** Drops every leading newline. */
  function StripLeading(s: string): (r: string)
    ensures |r| <= |s| && r == s[|s| - |r|..]
    ensures AllNewlines(s[..|s| - |r|])
    ensures r == [] || r[0] != '\n'
  {
    if s != [] && s[0] == '\n' then
      var r := StripLeading(s[1..]);
      assert s[|s| - |r|..] == s[1..][|s| - 1 - |r|..];
      r
    else s
  }

  /** Drops every trailing newline. */
  function StripTrailing(s: string): (r: string)
    ensures |r| <= |s| && r == s[..|r|]
    ensures AllNewlines(s[|r|..])
    ensures r == [] || r[|r| - 1] != '\n'
  {
    if s != [] && s[|s| - 1] == '\n' then StripTrailing(s[..|s| - 1]) else s
  }

  /** `r` sits at offset `i` of `s` with nothing but newlines on either side. */
  predicate Framed(s: string, i: int, r: string) {
    && 0 <= i <= |s| - |r|
    && s[i..i + |r|] == r
    && AllNewlines(s[..i])
    && AllNewlines(s[i + |r|..])
  }

  /** Cutting leading and then trailing newlines leaves a newline-framed infix. */
  lemma StripBothFramed(s: string)
    ensures Framed(s, |s| - |StripLeading(s)|, StripTrailing(StripLeading(s)))
  {
    var l := StripLeading(s);
    var r := StripTrailing(l);
    var i := |s| - |l|;
    assert s[i..i + |r|] == l[..|r|];
    assert s[i + |r|..] == l[|r|..];
  }

  /**
   * Python's `strip("\n")`: the longest infix that neither starts nor ends
   * with a newline, with only newlines cut away around it.
   */
  function StripNewlines(s: string): (r: string)
    ensures r == [] || (r[0] != '\n' && r[|r| - 1] != '\n')
    ensures exists i :: Framed(s, i, r)
  {
    StripBothFramed(s);
    StripTrailing(StripLeading(s))
  }

  /**
   * The newline-framed infix that neither starts nor ends with a newline is
   * unique, so the two contracts above pin `strip("\n")` down completely.
   */
  lemma FramedUnique(s: string, i: int, t: string, j: int, u: string)
    requires Framed(s, i, t) && Framed(s, j, u)
    requires t == [] || (t[0] != '\n' && t[|t| - 1] != '\n')
    requires u == [] || (u[0] != '\n' && u[|u| - 1] != '\n')
    ensures t == u
  {
    if t != [] {
      assert s[i] == s[i..i + |t|][0];
    }
    if u != [] {
      assert s[j] == s[j..j + |u|][0];
    }
    if t != [] && u == [] {
      NewlineAt(s, j, u, i);
    } else if t == [] && u != [] {
      NewlineAt(s, i, t, j);
    } else if t != [] {
      if i < j {
        NewlineAt(s, j, u, i);
      } else if j < i {
        NewlineAt(s, i, t, j);
      }
      var e1, e2 := i + |t| - 1, j + |u| - 1;
      assert s[e1] == s[i..i + |t|][|t| - 1];
      assert s[e2] == s[j..j + |u|][|u| - 1];
      if e1 < e2 {
        NewlineAt(s, i, t, e2);
      } else if e2 < e1 {
        NewlineAt(s, j, u, e1);
      }
    }
  }

  /** Outside its infix, a framed string holds only newlines. */
  lemma NewlineAt(s: string, i: int, t: string, k: int)
    requires Framed(s, i, t)
    requires 0 <= k < |s| && (k < i || k >= i + |t|)
    ensures s[k] == '\n'
  {
    if k < i {
      assert s[k] == s[..i][k];
    } else {
      assert s[k] == s[i + |t|..][k - i - |t|];
    }
  }

  lemma {:induction false} StripLeadingFrame(n: string, x: string)
    requires AllNewlines(n)
    requires x == [] || x[0] != '\n'
    ensures StripLeading(n + x) == x
  {
    if n != [] {
      assert (n + x)[0] == '\n' && (n + x)[1..] == n[1..] + x;
      StripLeadingFrame(n[1..], x);
    } else {
      assert n + x == x;
    }
  }

  lemma {:induction false} StripTrailingFrame(x: string, n: string)
    requires AllNewlines(n)
    requires x == [] || x[|x| - 1] != '\n'
    ensures StripTrailing(x + n) == x
  {
    if n != [] {
      var m := n[..|n| - 1];
      assert (x + n)[|x + n| - 1] == '\n' && (x + n)[..|x + n| - 1] == x + m;
      StripTrailingFrame(x, m);
    } else {
      assert x + n == x;
    }
  }

  /** Stripping removes exactly a frame of newlines around a string that neither starts nor ends with one. */
  lemma {:induction false} StripFramed(n1: string, e: string, n2: string)
    requires AllNewlines(n1) && AllNewlines(n2)
    requires |e| > 0 && e[0] != '\n' && e[|e| - 1] != '\n'
    ensures StripNewlines(n1 + e + n2) == e
  {
    assert n1 + e + n2 == n1 + (e + n2);
    StripLeadingFrame(n1, e + n2);
    StripTrailingFrame(e, n2);
  }

  // ---------------------------------------------------------------------------
  // The number language, as the regular expression states it

  predicate IsDigit(c: char) {
    '0' <= c <= '9'
  }

  predicate AllDigits(s: string) {
    forall i :: 0 <= i < |s| ==> IsDigit(s[i])
  }

  /** `b` is `d.f` with one or more digits `d` and exactly two digits `f`. */
  ghost predicate FixedSplit(b: string, d: string, f: string) {
    && b == d + "." + f
    && |d| >= 1 && AllDigits(d)
    && |f| == 2 && AllDigits(f)
  }

  /** `b` is `c.m e sg x`: one digit `c`, digits `m`, a sign `sg` and digits `x`. */
  ghost predicate SciSplit(b: string, c: char, m: string, sg: char, x: string) {
    && b == [c] + "." + m + "e" + [sg] + x
    && IsDigit(c)
    && |m| >= 1 && AllDigits(m)
    && (sg == '+' || sg == '-')
    && |x| >= 1 && AllDigits(x)
  }

  ghost predicate FixedLang(b: string) {
    exists d, f :: FixedSplit(b, d, f)
  }

  ghost predicate SciLang(b: string) {
    exists c, m, sg, x :: SciSplit(b, c, m, sg, x)
  }

  /** An optional minus sign followed by a body. */
  ghost predicate SignedSplit(s: string, sign: string, b: string) {
    (sign == "" || sign == "-") && s == sign + b && (FixedLang(b) || SciLang(b))
  }

  /** The strings the number regular expression matches in full. */
  ghost predicate NumberLang(s: string) {
    exists sign, b :: SignedSplit(s, sign, b)
  }

  // ---------------------------------------------------------------------------
  // The hand-coded matcher

  /** The end of the run of digits that starts at `i`. */
  function DigitRun(s: string, i: nat): (j: nat)
    requires i <= |s|
    ensures i <= j <= |s|
    ensures AllDigits(s[i..j])
    ensures j < |s| ==> !IsDigit(s[j])
    decreases |s| - i
  {
    if i == |s| || !IsDigit(s[i]) then i
    else
      var j := DigitRun(s, i + 1);
      assert s[i..j] == [s[i]] + s[i + 1..j];
      j
  }

  /** Digits, a point, then exactly two digits. */
  predicate MatchFixed(b: string) {
    var j := DigitRun(b, 0);
    1 <= j && j + 3 == |b| && b[j] == '.' && IsDigit(b[j + 1]) && IsDigit(b[j + 2])
  }

  /** One digit, a point, digits, `e`, a sign, digits. */
  predicate MatchScientific(b: string) {
    && 2 <= |b| && IsDigit(b[0]) && b[1] == '.'
    && var j := DigitRun(b, 2);
    && 3 <= j && j + 2 < |b| && b[j] == 'e' && (b[j + 1] == '+' || b[j + 1] == '-')
    && DigitRun(b, j + 2) == |b|
  }

  /** The whole number pattern: an optional minus, then either form. */
  predicate MatchNumber(s: string) {
    var b := if |s| > 0 && s[0] == '-' then s[1..] else s;
    MatchFixed(b) || MatchScientific(b)
  }

  lemma {:induction false} DigitRunAt(s: string, i: nat, j: nat)
    requires i <= j <= |s|
    requires AllDigits(s[i..j])
    requires j == |s| || !IsDigit(s[j])
    ensures DigitRun(s, i) == j
    decreases j - i
  {
    if i < j {
      assert IsDigit(s[i..j][0]);
      assert s[i + 1..j] == s[i..j][1..];
      DigitRunAt(s, i + 1, j);
    }
  }

  lemma MatchFixedCorrect(b: string)
    ensures MatchFixed(b) <==> FixedLang(b)
  {
    if MatchFixed(b) {
      var j := DigitRun(b, 0);
      assert b == b[..j] + "." + b[j + 1..];
      assert FixedSplit(b, b[..j], b[j + 1..]);
    }
    if FixedLang(b) {
      var d, f :| FixedSplit(b, d, f);
      assert b[..|d|] == d && b[|d|] == '.';
      assert b[0..|d|] == d;
      DigitRunAt(b, 0, |d|);
      assert b[|d| + 1] == f[0] && b[|d| + 2] == f[1];
    }
  }

  lemma MatchScientificSound(b: string)
    requires MatchScientific(b)
    ensures SciLang(b)
  {
    var j := DigitRun(b, 2);
    var m, x := b[2..j], b[j + 2..];
    assert b[..2] == [b[0]] + ".";
    assert b[j..j + 2] == "e" + [b[j + 1]];
    assert b == b[..2] + m + b[j..j + 2] + x;
    assert x == b[j + 2..|b|];
    assert SciSplit(b, b[0], m, b[j + 1], x);
  }

  lemma MatchScientificComplete(b: string)
    requires SciLang(b)
    ensures MatchScientific(b)
  {
    var c, m, sg, x :| SciSplit(b, c, m, sg, x);
    var j := 2 + |m|;
    assert b[0] == c && b[1] == '.';
    assert b[2..j] == m && b[j] == 'e' && b[j + 1] == sg && b[j + 2..] == x;
    DigitRunAt(b, 2, j);
    DigitRunAt(b, j + 2, |b|);
  }

  lemma MatchScientificCorrect(b: string)
    ensures MatchScientific(b) <==> SciLang(b)
  {
    if MatchScientific(b) {
      MatchScientificSound(b);
    }
    if SciLang(b) {
      MatchScientificComplete(b);
    }
  }

  lemma BodyEndsWithDigit(b: string)
    requires FixedLang(b) || SciLang(b)
    ensures |b| > 0 && IsDigit(b[|b| - 1])
  {
    if FixedLang(b) {
      var d, f :| FixedSplit(b, d, f);
      assert b[|b| - 1] == f[1];
    } else {
      var c, m, sg, x :| SciSplit(b, c, m, sg, x);
      assert b[|b| - 1] == x[|x| - 1];
    }
  }

  lemma BodyStartsWithDigit(b: string)
    requires FixedLang(b) || SciLang(b)
    ensures |b| > 0 && IsDigit(b[0])
  {
    if FixedLang(b) {
      var d, f :| FixedSplit(b, d, f);
      assert b[0] == d[0];
    } else {
      var c, m, sg, x :| SciSplit(b, c, m, sg, x);
      assert b[0] == c;
    }
  }

  lemma MatchNumberComplete(s: string)
    requires NumberLang(s)
    ensures MatchNumber(s)
  {
    var sign, b :| SignedSplit(s, sign, b);
    BodyStartsWithDigit(b);
    MatchFixedCorrect(b);
    MatchScientificCorrect(b);
    if sign == "" {
      assert s == b;
    } else {
      assert s[0] == '-' && s[1..] == b;
    }
  }

  /** The hand-coded matcher accepts exactly the language of the regular expression. */
  lemma MatchNumberCorrect(s: string)
    ensures MatchNumber(s) <==> NumberLang(s)
  {
    if MatchNumber(s) {
      var neg := |s| > 0 && s[0] == '-';
      var b := if neg then s[1..] else s;
      var sign := if neg then "-" else "";
      assert s == sign + b;
      MatchFixedCorrect(b);
      MatchScientificCorrect(b);
      assert SignedSplit(s, sign, b);
    }
    if NumberLang(s) {
      MatchNumberComplete(s);
    }
  }

  // ---------------------------------------------------------------------------
  // The recogniser

  /**
   * Python's `re.match` with a pattern ending in `$`: the match may also stop
   * just before a single newline that ends the string.
   */
  predicate RegexMatch(t: string) {
    MatchNumber(t) || (|t| > 0 && t[|t| - 1] == '\n' && MatchNumber(t[..|t| - 1]))
  }

  predicate EndsWithNewline(s: string) {
    |s| > 0 && s[|s| - 1] == '\n'
  }

  /** The string the checks look at: stripped of newlines when it ends with one, else unchanged. */
  function Prepared(s: string): (t: string)
    ensures !EndsWithNewline(t)
    ensures !EndsWithNewline(s) ==> t == s
    ensures EndsWithNewline(s) ==>
      && (exists i :: Framed(s, i, t))
      && (t == [] || (t[0] != '\n' && t[|t| - 1] != '\n'))
  {
    if EndsWithNewline(s) then StripNewlines(s) else s
  }

  /** Whether an output line is acceptable. */
  predicate Recognize(s: string) {
    var t := Prepared(s);
    t == "" || t == "\n" || t in Errors() || RegexMatch(t)
  }

  /**
   * What the recogniser accepts: after preparation, the empty string, an
   * error line, or a string of the number language. The `"\n"` comparison
   * and the newline allowance of `$` never apply to a prepared string.
   */
  lemma RecognizeSpec(s: string)
    ensures Recognize(s) <==>
      var t := Prepared(s);
      t == "" || t in Errors() || NumberLang(t)
  {
    var t := Prepared(s);
    MatchNumberCorrect(t);
    assert t != "\n";
  }

  /** Every listed error line is acceptable, with or without a trailing newline. */
  lemma {:induction false} ErrorsRecognized(i: nat)
    requires i < |Errors()|
    ensures Recognize(Errors()[i])
    ensures Recognize(Errors()[i] + "\n")
  {
    var e := Errors()[i];
    assert e[0] == 'E' && e[|e| - 1] != '\n';
    var s := e + "\n";
    assert s[0] == 'E' && s[|s| - 1] == '\n';
    StripOneTrailingNewline(e);
  }

  /** Stripping a line that ends in one newline, and starts and ends otherwise, gives the line back. */
  lemma StripOneTrailingNewline(e: string)
    requires |e| > 0 && e[0] != '\n' && e[|e| - 1] != '\n'
    ensures Prepared(e + "\n") == e
  {
    assert e + "\n" == "" + e + "\n";
    StripFramed("", e, "\n");
  }
}
