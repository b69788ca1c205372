/**
 * The three string operations the solution reader and the status classification rely on:
 * `str::split_whitespace`, `str::split` on a one-character pattern, and `str::contains`.
 * Characters are compared as they are; whitespace is the ASCII subset of Rust's
 * `char::is_whitespace`.
 */
module Text {

  /** Space, tab, line feed, vertical tab, form feed and carriage return. */
  predicate IsWhitespace(c: char) {
    c == ' ' || c == '\t' || c == '\n' || c == 11 as char || c == 12 as char || c == '\r'
  }

  predicate AllWhitespace(s: string) {
    forall i :: 0 <= i < |s| ==> IsWhitespace(s[i])
  }

  /** What `split_whitespace` can yield: a non-empty run without whitespace. */
  predicate IsWord(t: string) {
    t != [] && forall i :: 0 <= i < |t| ==> !IsWhitespace(t[i])
  }

  /** Length of the word `s` starts with: it ends at the first whitespace or at the end of `s`. */
  function WordLength(s: string): (n: nat)
    requires s != [] && !IsWhitespace(s[0])
    ensures 1 <= n <= |s|
    ensures IsWord(s[..n])
    ensures n < |s| ==> IsWhitespace(s[n])
    decreases |s|
  {
    if |s| == 1 || IsWhitespace(s[1]) then 1
    else
      var n := 1 + WordLength(s[1..]);
      assert s[..n] == [s[0]] + s[1..][..n - 1];
      n
  }

  /** `str::split_whitespace`: the maximal runs of non-whitespace characters, left to right. */
  function Tokens(s: string): (r: seq<string>)
    ensures forall k :: 0 <= k < |r| ==> IsWord(r[k])
    decreases |s|
  {
    if s == [] then []
    else if IsWhitespace(s[0]) then Tokens(s[1..])
    else
      var n := WordLength(s);
      [s[..n]] + Tokens(s[n..])
  }

  /** A line is blank for `split_whitespace` exactly when it holds only whitespace. */
  lemma {:induction false} TokensEmptyIffBlank(s: string)
    ensures Tokens(s) == [] <==> AllWhitespace(s)
    decreases |s|
  {
    if s != [] {
      TokensEmptyIffBlank(s[1..]);
      if IsWhitespace(s[0]) {
        assert AllWhitespace(s) <==> AllWhitespace(s[1..]) by {
          if AllWhitespace(s[1..]) {
            forall i | 0 <= i < |s| ensures IsWhitespace(s[i]) {
              if i > 0 { assert s[i] == s[1..][i - 1]; }
            }
          }
        }
      }
    }
  }

  /** Whitespace in front of a line does not change its tokens. */
  lemma {:induction false} TokensSkipLeading(ws: string, s: string)
    requires AllWhitespace(ws)
    ensures Tokens(ws + s) == Tokens(s)
    decreases |ws|
  {
    if ws == [] {
      assert ws + s == s;
    } else {
      assert (ws + s)[1..] == ws[1..] + s;
      TokensSkipLeading(ws[1..], s);
    }
  }

  /** A word followed by nothing or by whitespace is read as one token of exactly its length. */
  lemma {:induction false} WordLengthOfWord(w: string, rest: string)
    requires IsWord(w)
    requires rest == [] || IsWhitespace(rest[0])
    ensures WordLength(w + rest) == |w|
    decreases |w|
  {
    if |w| > 1 {
      assert (w + rest)[1..] == w[1..] + rest;
      WordLengthOfWord(w[1..], rest);
    }
  }

  /** A word followed by whitespace is the first token; the tokens of the rest follow it. */
  lemma TokensWordThenSpace(w: string, sep: string, s: string)
    requires IsWord(w) && sep != [] && AllWhitespace(sep)
    ensures Tokens(w + sep + s) == [w] + Tokens(s)
  {
    var line := w + sep + s;
    WordLengthOfWord(w, sep + s);
    assert line == w + (sep + s);
    assert line[..|w|] == w;
    assert line[|w|..] == sep + s;
    TokensSkipLeading(sep, s);
  }

  /** A word followed by nothing but whitespace is a single token: trailing whitespace is dropped. */
  lemma TokensWordThenBlank(w: string, ws: string)
    requires IsWord(w) && AllWhitespace(ws)
    ensures Tokens(w + ws) == [w]
  {
    if ws == [] {
      WordLengthOfWord(w, ws);
      assert w + ws == w;
      assert w[..|w|] == w && w[|w|..] == [];
    } else {
      TokensWordThenSpace(w, ws, "");
      assert w + ws + "" == w + ws;
    }
  }

  /** Round trip: writing words out separated by single spaces and splitting on whitespace gives them back. */
  lemma {:induction false} TokensJoin(ws: seq<string>)
    requires forall k :: 0 <= k < |ws| ==> IsWord(ws[k])
    ensures Tokens(Join(ws, ' ')) == ws
    decreases |ws|
  {
    if ws == [] {
    } else if |ws| == 1 {
      TokensWordThenBlank(ws[0], "");
      assert ws[0] + "" == ws[0];
    } else {
      TokensWordThenSpace(ws[0], " ", Join(ws[1..], ' '));
      TokensJoin(ws[1..]);
    }
  }

  /** `str::split` on a one-character separator: the pieces between separators, which may be empty. */
  function Split(s: string, sep: char): (pieces: seq<string>)
    ensures |pieces| >= 1
    ensures forall k :: 0 <= k < |pieces| ==> sep !in pieces[k]
    decreases |s|
  {
    if s == [] then [[]]
    else
      var rest := Split(s[1..], sep);
      if s[0] == sep then [[]] + rest
      else [[s[0]] + rest[0]] + rest[1..]
  }

  /** The pieces put back together with the separator between neighbours. */
  function Join(pieces: seq<string>, sep: char): string
    decreases |pieces|
  {
    if pieces == [] then ""
    else if |pieces| == 1 then pieces[0]
    else pieces[0] + [sep] + Join(pieces[1..], sep)
  }

  /** Splitting loses nothing: joining the pieces again gives the original string. */
  lemma {:induction false} JoinSplit(s: string, sep: char)
    ensures Join(Split(s, sep), sep) == s
    decreases |s|
  {
    if s != [] {
      var rest := Split(s[1..], sep);
      JoinSplit(s[1..], sep);
      if s[0] == sep {
        assert ([[]] + rest)[1..] == rest;
      } else if |rest| == 1 {
      } else {
        var pieces := [[s[0]] + rest[0]] + rest[1..];
        assert pieces[1..] == rest[1..];
        assert Join(rest, sep) == rest[0] + [sep] + Join(rest[1..], sep);
      }
    }
  }

  /** `pattern` occurs in `text` starting at index `i`. */
  ghost predicate OccursAt(text: string, pattern: string, i: int) {
    0 <= i && i + |pattern| <= |text| && text[i..i + |pattern|] == pattern
  }

  /** `str::contains` with a string pattern (the empty pattern occurs in every text). */
  function Contains(text: string, pattern: string): (b: bool)
    ensures b <==> exists i :: OccursAt(text, pattern, i)
    decreases |text|
  {
    if |pattern| > |text| then false
    else if text[..|pattern|] == pattern then
      assert OccursAt(text, pattern, 0);
      true
    else
      assert forall j :: OccursAt(text[1..], pattern, j) <==> j >= 0 && OccursAt(text, pattern, j + 1);
      assert forall i :: OccursAt(text, pattern, i) ==> i >= 1 && OccursAt(text[1..], pattern, i - 1);
      Contains(text[1..], pattern)
  }
}
