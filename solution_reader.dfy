/**
 * The Gurobi solution-file reader (`read_specific_solution`). A file is given as the sequence
 * of its lines without terminators, as `BufRead::lines` yields them. The first line is a header
 * and is ignored. After it, a line starting with `#` is a comment. Every other line must hold
 * exactly two whitespace-separated tokens, `name value`, and the value must parse as a number.
 * The first line that breaks these rules ends the read with an error, and no map is returned.
 *
 * Number parsing is a parameter: `parse` returns the value, or the text of its error.
 * Values are only passed through, so their type `V` stays abstract.
 */
module SolutionReader {
  import opened Wrappers
  import opened Text
  import opened Solvers

  /** The error text for a line with a token count other than two. */
  const IncorrectFormat: string := "Incorrect solution format"

  /** A line whose first character is `#`. Leading whitespace makes it an ordinary line. */
  predicate IsComment(line: string) {
    |line| > 0 && line[0] == '#'
  }

  /** A non-comment line of exactly two tokens. */
  predicate IsDataLine(line: string) {
    !IsComment(line) && |Tokens(line)| == 2
  }

  /** The variable a data line assigns. */
  function NameOf(line: string): string
    requires IsDataLine(line)
  {
    Tokens(line)[0]
  }

  /** The text of the value a data line assigns. */
  function ValueText(line: string): string
    requires IsDataLine(line)
  {
    Tokens(line)[1]
  }

  /** A line the reader gets past: a comment, or a data line whose value parses. */
  predicate LineAccepted<V>(line: string, parse: string -> Result<V, string>) {
    IsComment(line) || (IsDataLine(line) && parse(ValueText(line)).Ok?)
  }

  /** The error a line that is not accepted ends the read with. */
  function LineError<V>(line: string, parse: string -> Result<V, string>): string
    requires !LineAccepted(line, parse)
  {
    if IsDataLine(line) then parse(ValueText(line)).error else IncorrectFormat
  }

  /**
   * One line after the header, applied to the map read so far: an accepted line moves the read on
   * (a comment leaves the map, a data line inserts its name and parsed value); any other line ends
   * it with its own error.
   */
  function Step<V>(m: map<string, V>, line: string, parse: string -> Result<V, string>): (r: Result<map<string, V>, string>)
    ensures r.Ok? <==> LineAccepted(line, parse)
    ensures !LineAccepted(line, parse) ==> r == Err(LineError(line, parse))
    ensures IsComment(line) ==> r == Ok(m)
    ensures LineAccepted(line, parse) && IsDataLine(line) ==> r == Ok(m[NameOf(line) := parse(ValueText(line)).value])
  {
    if IsComment(line) then Ok(m)
    else
      var tokens := Tokens(line);
      if |tokens| == 2 then
        match parse(tokens[1])
        case Ok(v) => Ok(m[tokens[0] := v])
        case Err(e) => Err(e)
      else Err(IncorrectFormat)
  }

  /** The lines after the header, read one by one from the map `m`; the first error stops it. No name is ever removed. */
  function Fold<V>(m: map<string, V>, lines: seq<string>, parse: string -> Result<V, string>): (r: Result<map<string, V>, string>)
    ensures r.Ok? ==> m.Keys <= r.value.Keys
    decreases |lines|
  {
    if lines == [] then Ok(m)
    else
      match Step(m, lines[0], parse)
      case Err(e) => Err(e)
      case Ok(next) => Fold(next, lines[1..], parse)
  }

  /** The header line: what `read_line` leaves in its buffer, which is empty for an empty file. */
  function Header(lines: seq<string>): string {
    if lines == [] then "" else lines[0]
  }

  /** The lines `lines()` yields once the header has been read. */
  function Body(lines: seq<string>): seq<string> {
    if lines == [] then [] else lines[1..]
  }

  /** The header check: `split(" ").next()` yields a first piece. */
  predicate HeaderAccepted(header: string) {
    |Split(header, ' ')| > 0
  }

  /** What `read_specific_solution` returns for a file whose lines are `lines`. */
  function Solution<V>(lines: seq<string>, parse: string -> Result<V, string>): (r: Result<(Status, map<string, V>), string>)
    ensures r.Ok? ==> r.value.0 == Optimal
  {
    if HeaderAccepted(Header(lines)) then
      match Fold(map[], Body(lines), parse)
      case Ok(m) => Ok((Optimal, m))
      case Err(e) => Err(e)
    else Err(IncorrectFormat)
  }

  /** The reader: a loop over the lines after the header that inserts into a map and stops at the first bad line. */
  method ReadSpecificSolution<V>(lines: seq<string>, parse: string -> Result<V, string>)
    returns (r: Result<(Status, map<string, V>), string>)
    ensures r == Solution(lines, parse)
    ensures r.Ok? ==> r.value.0 == Optimal
  {
    var varsValue: map<string, V> := map[];
    var header := if |lines| == 0 then "" else lines[0];
    var body := if |lines| == 0 then [] else lines[1..];
    if |Split(header, ' ')| > 0 {
      var i := 0;
      while i < |body|
        invariant 0 <= i <= |body|
        invariant Fold(varsValue, body[i..], parse) == Fold(map[], body, parse)
      {
        var l := body[i];
        assert body[i..] == [l] + body[i + 1..];
        i := i + 1;
        if |l| > 0 && l[0] == '#' {
          continue;
        }
        var resultLine := Tokens(l);
        if |resultLine| == 2 {
          match parse(resultLine[1]) {
            case Ok(n) =>
              varsValue := varsValue[resultLine[0] := n];
            case Err(e) =>
              return Err(e);
          }
        } else {
          return Err(IncorrectFormat);
        }
      }
    } else {
      return Err(IncorrectFormat);
    }
    return Ok((Optimal, varsValue));
  }

  /** Reading `a + b` is reading `a` and then, if that succeeded, reading `b` from its map. */
  lemma {:induction false} FoldAppend<V>(m: map<string, V>, a: seq<string>, b: seq<string>, parse: string -> Result<V, string>)
    ensures Fold(m, a + b, parse) ==
      match Fold(m, a, parse)
      case Ok(next) => Fold(next, b, parse)
      case Err(e) => Err(e)
    decreases |a|
  {
    if a == [] {
      assert a + b == b;
    } else {
      assert (a + b)[0] == a[0];
      assert (a + b)[1..] == a[1..] + b;
      match Step(m, a[0], parse)
      case Err(e) =>
      case Ok(next) => FoldAppend(next, a[1..], b, parse);
    }
  }

  /** All or nothing: the read succeeds exactly when every line after the header is accepted. */
  lemma {:induction false} FoldOkIff<V>(m: map<string, V>, lines: seq<string>, parse: string -> Result<V, string>)
    ensures Fold(m, lines, parse).Ok? <==> forall i :: 0 <= i < |lines| ==> LineAccepted(lines[i], parse)
    decreases |lines|
  {
    if lines != [] {
      match Step(m, lines[0], parse)
      case Err(e) =>
      case Ok(next) =>
        FoldOkIff(next, lines[1..], parse);
        assert forall i :: 1 <= i < |lines| ==> lines[i] == lines[1..][i - 1];
    }
  }

  /** The first line that is not accepted decides the error, whatever follows it. */
  lemma {:induction false} FoldFirstRejected<V>(m: map<string, V>, lines: seq<string>, k: nat, parse: string -> Result<V, string>)
    requires k < |lines|
    requires forall i :: 0 <= i < k ==> LineAccepted(lines[i], parse)
    requires !LineAccepted(lines[k], parse)
    ensures Fold(m, lines, parse) == Err(LineError(lines[k], parse))
    decreases k
  {
    if k > 0 {
      var next := Step(m, lines[0], parse).value;
      assert forall i :: 0 <= i < k - 1 ==> lines[1..][i] == lines[i + 1];
      FoldFirstRejected(next, lines[1..], k - 1, parse);
    }
  }

  /** A comment line anywhere after the header leaves the result unchanged. */
  lemma CommentIgnored<V>(m: map<string, V>, a: seq<string>, c: string, b: seq<string>, parse: string -> Result<V, string>)
    requires IsComment(c)
    ensures Fold(m, a + [c] + b, parse) == Fold(m, a + b, parse)
  {
    FoldAppend(m, a, [c] + b, parse);
    FoldAppend(m, a, b, parse);
    assert a + [c] + b == a + ([c] + b);
    match Fold(m, a, parse)
    case Err(e) =>
    case Ok(next) =>
      assert ([c] + b)[1..] == b;
  }

  /** The names the data lines assign. */
  ghost function Names(lines: seq<string>): set<string> {
    set i | 0 <= i < |lines| && IsDataLine(lines[i]) :: NameOf(lines[i])
  }

  /** Line `i` is the last data line that assigns `name`. */
  ghost predicate LastAssignment(lines: seq<string>, i: int, name: string) {
    && 0 <= i < |lines|
    && IsDataLine(lines[i])
    && NameOf(lines[i]) == name
    && forall j :: i < j < |lines| && IsDataLine(lines[j]) ==> NameOf(lines[j]) != name
  }

  lemma NamesCons(line: string, rest: seq<string>)
    ensures Names([line] + rest) == (if IsDataLine(line) then {NameOf(line)} else {}) + Names(rest)
  {
    var lines := [line] + rest;
    forall x | x in Names(lines) ensures x in (if IsDataLine(line) then {NameOf(line)} else {}) + Names(rest) {
      var i :| 0 <= i < |lines| && IsDataLine(lines[i]) && NameOf(lines[i]) == x;
      if i > 0 { assert lines[i] == rest[i - 1]; }
    }
    forall x | x in Names(rest) ensures x in Names(lines) {
      var i :| 0 <= i < |rest| && IsDataLine(rest[i]) && NameOf(rest[i]) == x;
      assert lines[i + 1] == rest[i];
    }
    if IsDataLine(line) {
      assert lines[0] == line;
      assert NameOf(line) in Names(lines);
    }
  }

  /**
   * On success the map holds the names of the starting map and of the data lines and nothing else;
   * a name maps to the value of the last data line that assigns it (a later insert overwrites an
   * earlier one), and a name no data line assigns keeps its starting value.
   */
  lemma {:induction false} FoldSuccess<V>(m: map<string, V>, lines: seq<string>, parse: string -> Result<V, string>, r: map<string, V>)
    requires Fold(m, lines, parse) == Ok(r)
    ensures r.Keys == m.Keys + Names(lines)
    ensures forall i, name :: LastAssignment(lines, i, name) ==>
      name in r && parse(ValueText(lines[i])) == Ok(r[name])
    ensures forall name :: name in m && name !in Names(lines) ==> name in r && r[name] == m[name]
    decreases |lines|
  {
    if lines == [] {
      assert Names(lines) == {};
    } else {
      var line, rest := lines[0], lines[1..];
      assert lines == [line] + rest;
      NamesCons(line, rest);
      var next := Step(m, line, parse).value;
      FoldSuccess(next, rest, parse, r);
      forall i, name | LastAssignment(lines, i, name)
        ensures name in r && parse(ValueText(lines[i])) == Ok(r[name])
      {
        if i > 0 {
          assert LastAssignment(rest, i - 1, name);
        }
      }
    }
  }

  /** The header is never rejected: `split` always yields a first piece, so the error branch is dead. */
  lemma HeaderNeverRejected(lines: seq<string>)
    ensures HeaderAccepted(Header(lines))
  {
  }

  /** A file of at most one line (an empty file, or a header alone) reads as an empty map. */
  lemma HeaderOnly<V>(lines: seq<string>, parse: string -> Result<V, string>)
    requires |lines| <= 1
    ensures Solution(lines, parse) == Ok((Optimal, map[]))
  {
  }

  /** The header's content does not matter. */
  lemma HeaderContentIgnored<V>(h1: string, h2: string, body: seq<string>, parse: string -> Result<V, string>)
    ensures Solution([h1] + body, parse) == Solution([h2] + body, parse)
  {
  }

  /**
   * What the reader returns, stated line by line: the result is an error exactly when some line
   * after the header is not accepted, and then it is the first such line's error; on success the
   * status is `Optimal` and the map assigns exactly the data lines' names, each the value of its
   * last assignment.
   */
  lemma SolutionCharacterised<V>(lines: seq<string>, parse: string -> Result<V, string>)
    ensures Solution(lines, parse).Ok? <==> forall i :: 0 <= i < |Body(lines)| ==> LineAccepted(Body(lines)[i], parse)
    ensures forall k ::
      (&& 0 <= k < |Body(lines)|
       && !LineAccepted(Body(lines)[k], parse)
       && forall i :: 0 <= i < k ==> LineAccepted(Body(lines)[i], parse))
      ==> Solution(lines, parse) == Err(LineError(Body(lines)[k], parse))
    ensures Solution(lines, parse).Ok? ==>
      && Solution(lines, parse).value.0 == Optimal
      && Solution(lines, parse).value.1.Keys == Names(Body(lines))
      && forall i, name :: LastAssignment(Body(lines), i, name) ==>
           name in Solution(lines, parse).value.1 &&
           parse(ValueText(Body(lines)[i])) == Ok(Solution(lines, parse).value.1[name])
  {
    var body := Body(lines);
    FoldOkIff(map[], body, parse);
    forall k | 0 <= k < |body| && !LineAccepted(body[k], parse) &&
      (forall i :: 0 <= i < k ==> LineAccepted(body[i], parse))
      ensures Solution(lines, parse) == Err(LineError(body[k], parse))
    {
      FoldFirstRejected(map[], body, k, parse);
    }
    if Fold(map[], body, parse).Ok? {
      FoldSuccess(map[], body, parse, Fold(map[], body, parse).value);
    }
  }

  /**
   * The line format the solver writes: any leading whitespace, a name, a non-empty run of
   * whitespace, a value, any trailing whitespace. Such a line is a data line assigning that name,
   * unless the name starts with `#` at column 0.
   */
  lemma DataLineFormat(ws1: string, name: string, sep: string, value: string, ws2: string)
    requires AllWhitespace(ws1) && AllWhitespace(ws2) && sep != [] && AllWhitespace(sep)
    requires IsWord(name) && IsWord(value)
    requires ws1 == [] ==> name[0] != '#'
    ensures var line := ws1 + name + sep + value + ws2;
      IsDataLine(line) && NameOf(line) == name && ValueText(line) == value
  {
    var line := ws1 + name + sep + value + ws2;
    TokensWordThenBlank(value, ws2);
    TokensWordThenSpace(name, sep, value + ws2);
    assert line == ws1 + (name + sep + (value + ws2));
    TokensSkipLeading(ws1, name + sep + (value + ws2));
    if ws1 != [] {
      assert line[0] == ws1[0];
    } else {
      assert line[0] == name[0];
    }
  }
}
