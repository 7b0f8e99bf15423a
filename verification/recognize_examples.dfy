/** What the recogniser accepts and rejects, as lemmas about concrete and general lines. */
module RecognizerExamples {
  import opened Recognizer

  /** The empty string and a lone newline are both acceptable. */
  lemma RecognizeEmptyLines()
    ensures Recognize("")
    ensures Recognize("\n")
  {
    assert Prepared("\n") == "";
  }

  /** A signed body of either form is acceptable. */
  lemma SignedAccepted(sign: string, b: string)
    requires sign == "" || sign == "-"
    requires FixedLang(b) || SciLang(b)
    ensures Recognize(sign + b)
  {
    BodyEndsWithDigit(b);
    var s := sign + b;
    assert SignedSplit(s, sign, b);
    assert s[|s| - 1] == b[|b| - 1];
    RecognizeSpec(s);
  }

  /**
   * Fixed-point form: an optional minus, one or more digits, a point and
   * exactly two digits is acceptable.
   */
  lemma FixedFormAccepted(neg: bool, d: string, f: string)
    requires |d| >= 1 && AllDigits(d)
    requires |f| == 2 && AllDigits(f)
    ensures Recognize((if neg then "-" else "") + d + "." + f)
  {
    var sign := if neg then "-" else "";
    var b := d + "." + f;
    assert FixedSplit(b, d, f);
    SignedAccepted(sign, b);
    assert sign + (d + "." + f) == sign + (d + ".") + f;
    assert sign + (d + ".") == sign + d + ".";
  }

  /**
   * Scientific form: an optional minus, exactly one digit, a point, one or
   * more digits, `e`, a sign and one or more digits is acceptable.
   */
  lemma ScientificFormAccepted(neg: bool, c: char, m: string, sg: char, x: string)
    requires IsDigit(c) && |m| >= 1 && AllDigits(m)
    requires (sg == '+' || sg == '-') && |x| >= 1 && AllDigits(x)
    ensures Recognize((if neg then "-" else "") + [c] + "." + m + "e" + [sg] + x)
  {
    var sign := if neg then "-" else "";
    var b := [c] + "." + m + "e" + [sg] + x;
    assert SciSplit(b, c, m, sg, x);
    SignedAccepted(sign, b);
    SignBeforeScientific(sign, [c], m, [sg], x);
  }

  /** Putting a sign in front of a scientific body is plain concatenation. */
  lemma SignBeforeScientific(sign: string, c: string, m: string, sg: string, x: string)
    ensures sign + (c + "." + m + "e" + sg + x) == sign + c + "." + m + "e" + sg + x
  {
    assert sign + (c + "." + m + "e" + sg + x) == sign + (c + "." + m + "e" + sg) + x;
    assert sign + (c + "." + m + "e" + sg) == sign + (c + "." + m + "e") + sg;
    assert sign + (c + "." + m + "e") == sign + (c + "." + m) + "e";
    assert sign + (c + "." + m) == sign + (c + ".") + m;
    assert sign + (c + ".") == sign + c + ".";
  }

  lemma PreparedBothEnds()
    ensures Prepared("\n\n1.00\n") == "1.00"
  {
    assert "\n\n1.00\n" == "\n\n" + "1.00" + "\n";
    StripFramed("\n\n", "1.00", "\n");
  }

  /** A line that ends with a newline has newlines stripped from both ends. */
  lemma StripBothEnds()
    ensures Recognize("\n\n1.00\n")
  {
    PreparedBothEnds();
    FixedHundredths();
  }

  lemma FixedHundredths()
    ensures RegexMatch("1.00")
  {
    assert DigitRun("1.00", 1) == 1;
    assert DigitRun("1.00", 0) == 1;
    assert MatchFixed("1.00");
  }

  /** A line that does not end with a newline is checked as it is, leading newline included. */
  lemma NoStripWithoutTrailingNewline()
    ensures !Recognize("\n1.00")
  {
    var s := "\n1.00";
    assert Prepared(s) == s;
    NotAnErrorLine(s);
    assert !MatchNumber(s);
  }

  /** A line that does not start with `E` is not an error line. */
  lemma NotAnErrorLine(s: string)
    requires |s| > 0 && s[0] != 'E'
    ensures s !in Errors()
  {
    forall i | 0 <= i < |Errors()| ensures Errors()[i] != s {
      assert Errors()[i][0] == 'E';
    }
  }

  lemma RejectedDecimals()
    ensures !Recognize("1.5")
    ensures !Recognize("1")
    ensures !Recognize("+1.00")
  {
    NotAnErrorLine("1.5");
    NotAnErrorLine("1");
    NotAnErrorLine("+1.00");
    assert !MatchNumber("1.5") && !MatchNumber("1") && !MatchNumber("+1.00");
  }

  lemma RejectedWords()
    ensures !Recognize("ERROR: foo")
    ensures !Recognize("abc")
  {
    NotAnErrorLine("abc");
    assert "ERROR: foo" !in Errors() by {
      forall i | 0 <= i < |Errors()| ensures Errors()[i] != "ERROR: foo" {
        assert |Errors()[i]| != 10;
      }
    }
    assert !MatchNumber("ERROR: foo") && !MatchNumber("abc");
  }
}
