/** The parser's unit-test vectors and edge cases, as lemmas about concrete lines. */
module ParserExamples {
  import opened Wrappers
  import opened BinOps
  import opened Parser

  /** An empty line is a single empty token. */
  lemma TokenizeEmptyLine()
    ensures Tokenize("") == [""]
  {
  }

  /** A repeated space is not collapsed: it yields an empty token. */
  lemma TokenizeDoubleSpace()
    ensures Tokenize("1  2") == ["1", "", "2"]
  {
    assert ["1", "", "2"][1..] == ["", "2"] && ["", "2"][1..] == ["2"];
    assert Join(["1", "", "2"]) == "1  2";
    TokenizeJoin(["1", "", "2"]);
  }

  /** The lines of the parser's unit tests split on their single spaces. */
  lemma TokenizeZeros()
    ensures Tokenize("0 0") == ["0", "0"]
    ensures Tokenize("0 0 +") == ["0", "0", "+"]
  {
    assert ["0", "0", "+"][1..] == ["0", "+"] && ["0", "+"][1..] == ["+"];
    assert ["0", "0"][1..] == ["0"];
    assert Join(["0", "0"]) == "0 0";
    assert Join(["0", "0", "+"]) == "0 0 +";
    TokenizeJoin(["0", "0"]);
    TokenizeJoin(["0", "0", "+"]);
  }

  /** Splitting the failing line of the examples below. */
  lemma TokenizeBadLine()
    ensures Tokenize("1 x 2 +") == ["1", "x", "2", "+"]
  {
    var ts := ["1", "x", "2", "+"];
    assert ts[1..] == ["x", "2", "+"] && ["x", "2", "+"][1..] == ["2", "+"] && ["2", "+"][1..] == ["+"];
    assert Join(ts) == "1 x 2 +";
    TokenizeJoin(ts);
  }

  lemma ParseLoopZeros(parseNum: string -> Option<real>)
    requires parseNum("0") == Some(0.0)
    ensures ParseLoop(parseNum, ["0"], []) == Success([Num(0.0)])
    ensures ParseLoop(parseNum, ["0", "0"], []) == Success([Num(0.0), Num(0.0)])
  {
    assert ["0", "0"][1..] == ["0"];
    assert ParseToken(parseNum, "0") == Some(Num(0.0));
    assert [] + [Num(0.0)] == [Num(0.0)];
    assert [Num(0.0)] + [Num(0.0)] == [Num(0.0), Num(0.0)];
  }

  lemma ParseLoopZeroZeroPlus(parseNum: string -> Option<real>)
    requires parseNum("0") == Some(0.0)
    ensures ParseLoop(parseNum, ["0", "0", "+"], []) == Success([Num(0.0), Num(0.0), Op(Add)])
  {
    assert ["0", "0", "+"][1..] == ["0", "+"] && ["0", "+"][1..] == ["+"];
    assert ParseToken(parseNum, "0") == Some(Num(0.0));
    assert ParseToken(parseNum, "+") == Some(Op(Add));
    assert [] + [Num(0.0)] == [Num(0.0)];
    assert [Num(0.0)] + [Num(0.0)] == [Num(0.0), Num(0.0)];
    assert [Num(0.0), Num(0.0)] + [Op(Add)] == [Num(0.0), Num(0.0), Op(Add)];
  }

  lemma ParseLoopBadLine(parseNum: string -> Option<real>)
    requires parseNum("1") == Some(1.0) && parseNum("x") == None
    ensures ParseLoop(parseNum, ["1", "x", "2", "+"], []) == Failure(ParseError(BadToken, [Num(1.0)], ["2", "+"]))
  {
    var ts := ["1", "x", "2", "+"];
    assert ts[1..] == ["x", "2", "+"] && ts[1..][1..] == ["2", "+"];
    assert ParseToken(parseNum, "1") == Some(Num(1.0));
    assert ParseToken(parseNum, "x") == None;
    assert [] + [Num(1.0)] == [Num(1.0)];
  }

  /** The parser's unit-test vectors, for a number parser that reads "0" as zero. */
  lemma ParseProgramExamples(parseNum: string -> Option<real>)
    requires parseNum("0") == Some(0.0)
    ensures ParseProgram(parseNum, "0") == Success([Num(0.0)])
    ensures ParseProgram(parseNum, "0 0") == Success([Num(0.0), Num(0.0)])
    ensures ParseProgram(parseNum, "0 0 +") == Success([Num(0.0), Num(0.0), Op(Add)])
  {
    TokenizeJoin(["0"]);
    TokenizeZeros();
    ParseLoopZeros(parseNum);
    ParseLoopZeroZeroPlus(parseNum);
  }

  /** A bad token stops the parse; it is dropped and the tokens after it are kept. */
  lemma ParseFailureExample(parseNum: string -> Option<real>)
    requires parseNum("1") == Some(1.0) && parseNum("x") == None
    ensures ParseProgram(parseNum, "1 x 2 +") == Failure(ParseError(BadToken, [Num(1.0)], ["2", "+"]))
  {
    TokenizeBadLine();
    ParseLoopBadLine(parseNum);
  }
}
