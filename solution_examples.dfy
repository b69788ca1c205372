/** Concrete solution files and what the reader makes of them. */
module SolutionExamples {
  import opened Wrappers
  import opened Text
  import opened Solvers
  import opened SolutionReader

  /** A header and two indented data lines read as a map of both names. */
  lemma TwoValues<V>(parse: string -> Result<V, string>, a: V, b: V)
    requires parse("1.0") == Ok(a) && parse("2.5") == Ok(b)
    ensures Solution(["Stat", " a 1.0", " b 2.5"], parse) == Ok((Optimal, map["a" := a, "b" := b]))
  {
    DataLineFormat(" ", "a", " ", "1.0", "");
    assert " a 1.0" == " " + "a" + " " + "1.0" + "";
    DataLineFormat(" ", "b", " ", "2.5", "");
    assert " b 2.5" == " " + "b" + " " + "2.5" + "";
    var body := [" a 1.0", " b 2.5"];
    assert Body(["Stat", " a 1.0", " b 2.5"]) == body;
    assert body[1..] == [" b 2.5"];
    assert Fold(map[], body, parse) == Fold(map["a" := a], [" b 2.5"], parse);
    assert Fold(map["a" := a], [" b 2.5"], parse) == Fold(map["a" := a, "b" := b], [], parse);
  }

  /** Comment lines after the header are skipped. */
  lemma CommentSkipped<V>(parse: string -> Result<V, string>, v: V)
    requires parse("3") == Ok(v)
    ensures Solution(["h", "# comment", "x 3"], parse) == Ok((Optimal, map["x" := v]))
  {
    DataLineFormat("", "x", " ", "3", "");
    assert "x 3" == "" + "x" + " " + "3" + "";
    var body := ["# comment", "x 3"];
    assert Body(["h", "# comment", "x 3"]) == body;
    assert body[1..] == ["x 3"];
    assert Fold(map[], body, parse) == Fold(map[], ["x 3"], parse);
    assert Fold(map[], ["x 3"], parse) == Fold(map["x" := v], [], parse);
  }

  /** Whitespace before `#` makes the line an ordinary data line, so `#x` becomes a name. */
  lemma IndentedHashIsData<V>(parse: string -> Result<V, string>, v: V)
    requires parse("3") == Ok(v)
    ensures Solution(["h", " #x 3"], parse) == Ok((Optimal, map["#x" := v]))
  {
    DataLineFormat(" ", "#x", " ", "3", "");
    assert " #x 3" == " " + "#x" + " " + "3" + "";
    assert Body(["h", " #x 3"]) == [" #x 3"];
    assert Fold(map[], [" #x 3"], parse) == Fold(map["#x" := v], [], parse);
  }

  /** Tokens may be separated by any run of whitespace, and trailing whitespace is dropped. */
  lemma TabsAndTrailingSpace<V>(parse: string -> Result<V, string>, v: V)
    requires parse("3") == Ok(v)
    ensures Solution(["h", "x\t\t3  "], parse) == Ok((Optimal, map["x" := v]))
  {
    DataLineFormat("", "x", "\t\t", "3", "  ");
    assert "x\t\t3  " == "" + "x" + "\t\t" + "3" + "  ";
    assert Body(["h", "x\t\t3  "]) == ["x\t\t3  "];
    assert Fold(map[], ["x\t\t3  "], parse) == Fold(map["x" := v], [], parse);
  }

  /** A later line for the same name overwrites the earlier value. */
  lemma LastValueWins<V>(parse: string -> Result<V, string>, v1: V, v2: V)
    requires parse("1") == Ok(v1) && parse("2") == Ok(v2)
    ensures Solution(["h", "x 1", "x 2"], parse) == Ok((Optimal, map["x" := v2]))
  {
    DataLineFormat("", "x", " ", "1", "");
    assert "x 1" == "" + "x" + " " + "1" + "";
    DataLineFormat("", "x", " ", "2", "");
    assert "x 2" == "" + "x" + " " + "2" + "";
    var body := ["x 1", "x 2"];
    assert Body(["h", "x 1", "x 2"]) == body;
    assert body[1..] == ["x 2"];
    assert Fold(map[], body, parse) == Fold(map["x" := v1], ["x 2"], parse);
    assert map["x" := v1]["x" := v2] == map["x" := v2];
    assert Fold(map["x" := v1], ["x 2"], parse) == Fold(map["x" := v2], [], parse);
  }

  /** A line of three tokens fails the whole read; the lines after it are never looked at. */
  lemma ThreeTokensRejected<V>(parse: string -> Result<V, string>, v: V, rest: seq<string>)
    requires parse("1") == Ok(v)
    ensures Solution(["h", "x 1", "a 1 2"] + rest, parse) == Err(IncorrectFormat)
  {
    DataLineFormat("", "x", " ", "1", "");
    assert "x 1" == "" + "x" + " " + "1" + "";
    assert Join(["a", "1", "2"], ' ') == "a 1 2";
    TokensJoin(["a", "1", "2"]);
    var body := ["x 1", "a 1 2"] + rest;
    assert Body(["h", "x 1", "a 1 2"] + rest) == body;
    assert body[0] == "x 1" && body[1..] == ["a 1 2"] + rest;
    assert Fold(map[], body, parse) == Fold(map["x" := v], ["a 1 2"] + rest, parse);
  }

  /** A blank line is a line of zero tokens, so it is rejected too. */
  lemma BlankLineRejected<V>(parse: string -> Result<V, string>)
    ensures Solution(["h", ""], parse) == Err(IncorrectFormat)
  {
    assert Body(["h", ""]) == [""];
  }

  /** A value that does not parse fails the read with the parser's own error. */
  lemma BadNumberRejected<V>(parse: string -> Result<V, string>, e: string)
    requires parse("notanumber") == Err(e)
    ensures Solution(["h", " a notanumber"], parse) == Err(e)
  {
    DataLineFormat(" ", "a", " ", "notanumber", "");
    assert " a notanumber" == " " + "a" + " " + "notanumber" + "";
    assert Body(["h", " a notanumber"]) == [" a notanumber"];
  }
}
