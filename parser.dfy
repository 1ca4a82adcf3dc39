/**
 * The coverage-matrix parser over the lines of a matrix file: the first and
 * the last line (the outer brackets) are dropped, and every remaining line is
 * one row, read as its bracket-free text split at ", " into entries, each
 * true exactly when it reads "true" in any letter case.
 */
module MatrixParser {
  import opened Wrappers

  // ---------------------------------------------------------------------
  // The string operations
  // ---------------------------------------------------------------------

  /** `replace("[", "").replace("]", "")`: the text without its bracket characters. */
  function RemoveBrackets(s: string): (r: string)
    ensures '[' !in r && ']' !in r
    ensures |r| <= |s|
    ensures forall c :: c in r ==> c in s
  {
    if s == [] then []
    else (if s[0] == '[' || s[0] == ']' then [] else [s[0]]) + RemoveBrackets(s[1..])
  }

  /** The pieces of `s` around the occurrences of ", ", matched from the left. */
  function Pieces(s: string): (r: seq<string>)
    ensures |r| >= 1
    decreases |s|
  {
    if |s| < 2 then [s]
    else if s[0] == ',' && s[1] == ' ' then [""] + Pieces(s[2..])
    else
      var p := Pieces(s[1..]);
      [[s[0]] + p[0]] + p[1..]
  }

  /** The pieces without the empty ones at the end. */
  function DropTrailingEmpty(p: seq<string>): (r: seq<string>)
    ensures |r| <= |p| && r == p[..|r|]
    ensures r != [] ==> r[|r| - 1] != ""
    ensures forall i :: |r| <= i < |p| ==> p[i] == ""
  {
    if p == [] || p[|p| - 1] != "" then p
    else DropTrailingEmpty(p[..|p| - 1])
  }

  /**
   * `split(", ")`: text without a separator is returned whole, even when it
   * is empty; otherwise the empty pieces at the end are dropped.
   */
  function Split(s: string): seq<string>
  {
    var p := Pieces(s);
    if |p| == 1 then p else DropTrailingEmpty(p)
  }

  /** The letter `c` in either case. */
  predicate EitherCase(x: char, lower: char, upper: char)
  {
    x == lower || x == upper
  }

  /** `Boolean.parseBoolean`: "true" in any letter case. */
  predicate ParseBoolean(token: string)
  {
    |token| == 4 && EitherCase(token[0], 't', 'T') && EitherCase(token[1], 'r', 'R')
    && EitherCase(token[2], 'u', 'U') && EitherCase(token[3], 'e', 'E')
  }

  /** One row: the entries of the bracket-free line. */
  function ParseRow(line: string): (row: seq<bool>)
    ensures |row| == |Split(RemoveBrackets(line))|
  {
    var values := Split(RemoveBrackets(line));
    seq(|values|, j requires 0 <= j < |values| => ParseBoolean(values[j]))
  }

  /**
   * The parsed matrix: dropping the first or the last line of a list without
   * one throws `NoSuchElementException`; otherwise one row per inner line.
   */
  function ParseMatrix(lines: seq<string>): (r: Result<seq<seq<bool>>>)
    ensures |lines| < 2 <==> r == Err(NoSuchElement)
    ensures r.Ok? ==> |r.value| == |lines| - 2
  {
    if |lines| < 2 then Err(NoSuchElement)
    else Ok(seq(|lines| - 2, i requires 0 <= i < |lines| - 2 => ParseRow(lines[i + 1])))
  }

  // ---------------------------------------------------------------------
  // The parser
  // ---------------------------------------------------------------------

  /**
   * `parseCoverageMatrix` after the file is read: both ends are removed from
   * the list, then the rows are filled in one loop and each row's entries in
   * an inner one.
   */
  method ParseCoverageMatrix(lines: seq<string>) returns (r: Result<seq<seq<bool>>>)
    ensures r == ParseMatrix(lines)
  {
    if |lines| == 0 {
      return Err(NoSuchElement);
    }
    var matrix := lines[1..];
    if |matrix| == 0 {
      return Err(NoSuchElement);
    }
    matrix := matrix[..|matrix| - 1];
    var parsed := new seq<bool>[|matrix|];
    for i := 0 to |matrix|
      invariant forall k :: 0 <= k < i ==> parsed[k] == ParseRow(matrix[k])
    {
      parsed[i] := ParseLine(matrix[i]);
    }
    assert forall k :: 0 <= k < |matrix| ==> matrix[k] == lines[k + 1];
    assert parsed[..] == ParseMatrix(lines).value;
    r := Ok(parsed[..]);
  }

  /** The inner loop of `parseCoverageMatrix`: one entry of the row after the other. */
  method ParseLine(line: string) returns (row: seq<bool>)
    ensures row == ParseRow(line)
  {
    var values := Split(RemoveBrackets(line));
    var entries := new bool[|values|];
    for j := 0 to |values|
      invariant forall k :: 0 <= k < j ==> entries[k] == ParseBoolean(values[k])
    {
      entries[j] := ParseBoolean(values[j]);
    }
    row := entries[..];
  }

  // ---------------------------------------------------------------------
  // The matrix file format
  // ---------------------------------------------------------------------

  /** How an entry is written. */
  function Token(b: bool): string
  {
    if b then "true" else "false"
  }

  /** The entries joined by ", ". */
  function Join(tokens: seq<string>): string
  {
    if |tokens| == 0 then ""
    else if |tokens| == 1 then tokens[0]
    else tokens[0] + ", " + Join(tokens[1..])
  }

  function Tokens(row: seq<bool>): (tokens: seq<string>)
    ensures |tokens| == |row| && forall j :: 0 <= j < |row| ==> tokens[j] == Token(row[j])
  {
    seq(|row|, j requires 0 <= j < |row| => Token(row[j]))
  }

  /** A matrix as its file holds it: "[", one "[e, e, ...]" line per row, "]". */
  function Format(matrix: seq<seq<bool>>): (lines: seq<string>)
    ensures |lines| == |matrix| + 2
  {
    ["["] + seq(|matrix|, i requires 0 <= i < |matrix| => "[" + Join(Tokens(matrix[i])) + "]") + ["]"]
  }

  lemma {:induction false} RemoveBracketsAppend(a: string, b: string)
    ensures RemoveBrackets(a + b) == RemoveBrackets(a) + RemoveBrackets(b)
  {
    if a != [] {
      var head := if a[0] == '[' || a[0] == ']' then [] else [a[0]];
      assert (a + b)[0] == a[0] && (a + b)[1..] == a[1..] + b;
      RemoveBracketsAppend(a[1..], b);
      calc {
        RemoveBrackets(a + b);
        head + RemoveBrackets(a[1..] + b);
        head + (RemoveBrackets(a[1..]) + RemoveBrackets(b));
        (head + RemoveBrackets(a[1..])) + RemoveBrackets(b);
        RemoveBrackets(a) + RemoveBrackets(b);
      }
    } else {
      assert a + b == b;
    }
  }

  lemma {:induction false} RemoveBracketsNone(s: string)
    requires '[' !in s && ']' !in s
    ensures RemoveBrackets(s) == s
  {
    if s != [] {
      RemoveBracketsNone(s[1..]);
    }
  }

  /** A first character other than a comma joins the first piece of the rest. */
  lemma PiecesCons(c: char, t: string)
    requires c != ','
    ensures Pieces([c] + t) == [[c] + Pieces(t)[0]] + Pieces(t)[1..]
  {
    assert ([c] + t)[0] == c && ([c] + t)[1..] == t;
    if t == [] {
      assert [c] + t == [c] && Pieces(t) == [t];
    }
  }

  /** A word without a comma joins the first piece of what follows it. */
  lemma {:induction false} PiecesAfterWord(w: string, s: string)
    requires ',' !in w
    ensures Pieces(w + s) == [w + Pieces(s)[0]] + Pieces(s)[1..]
  {
    if w == [] {
      assert w + s == s && w + Pieces(s)[0] == Pieces(s)[0];
      assert [Pieces(s)[0]] + Pieces(s)[1..] == Pieces(s);
    } else {
      var c, rest := w[0], w[1..];
      assert w == [c] + rest && w + s == [c] + (rest + s);
      PiecesAfterWord(rest, s);
      PiecesCons(c, rest + s);
      assert [c] + (rest + Pieces(s)[0]) == w + Pieces(s)[0];
    }
  }

  /** Splitting joined comma-free tokens gives the tokens back. */
  lemma {:induction false} PiecesOfJoin(tokens: seq<string>)
    requires |tokens| >= 1 && forall j :: 0 <= j < |tokens| ==> ',' !in tokens[j]
    ensures Pieces(Join(tokens)) == tokens
  {
    if |tokens| == 1 {
      PiecesAfterWord(tokens[0], "");
      assert tokens[0] + "" == tokens[0];
    } else {
      var rest := Join(tokens[1..]);
      PiecesOfJoin(tokens[1..]);
      assert Join(tokens) == tokens[0] + (", " + rest);
      PiecesAfterWord(tokens[0], ", " + rest);
      assert (", " + rest)[2..] == rest;
      assert tokens[0] + "" == tokens[0];
    }
  }

  /** Joined entry tokens contain no brackets. */
  lemma {:induction false} JoinHasNoBrackets(tokens: seq<string>)
    requires forall j :: 0 <= j < |tokens| ==> tokens[j] == "true" || tokens[j] == "false"
    ensures '[' !in Join(tokens) && ']' !in Join(tokens)
  {
    if |tokens| >= 2 {
      JoinHasNoBrackets(tokens[1..]);
    }
  }

  /** Text without brackets, put between brackets, loses just those two. */
  lemma StripOuter(x: string)
    requires '[' !in x && ']' !in x
    ensures RemoveBrackets("[" + x + "]") == x
  {
    RemoveBracketsAppend("[" + x, "]");
    RemoveBracketsAppend("[", x);
    RemoveBracketsNone(x);
    assert RemoveBrackets("[") == [] by {
      assert "["[1..] == [];
    }
    assert RemoveBrackets("]") == [] by {
      assert "]"[1..] == [];
    }
    assert [] + x + [] == x;
  }

  /** The brackets around a written row are all the brackets it has. */
  lemma StripRow(tokens: seq<string>)
    requires forall j :: 0 <= j < |tokens| ==> tokens[j] == "true" || tokens[j] == "false"
    ensures RemoveBrackets("[" + Join(tokens) + "]") == Join(tokens)
  {
    JoinHasNoBrackets(tokens);
    StripOuter(Join(tokens));
  }

  /** Splitting joined entry tokens gives them back. */
  lemma SplitJoin(tokens: seq<string>)
    requires |tokens| >= 1 && forall j :: 0 <= j < |tokens| ==> tokens[j] == "true" || tokens[j] == "false"
    ensures Split(Join(tokens)) == tokens
  {
    forall j | 0 <= j < |tokens|
      ensures ',' !in tokens[j]
    {
    }
    PiecesOfJoin(tokens);
    assert tokens[|tokens| - 1] != "";
  }

  /** An entry reads back as what was written. */
  lemma TokenParses(b: bool)
    ensures ParseBoolean(Token(b)) == b
  {
  }

  /** A row reads as the parsed entries its bracket-free text splits into. */
  lemma ParseRowOf(line: string, tokens: seq<string>, row: seq<bool>)
    requires Split(RemoveBrackets(line)) == tokens
    requires |tokens| == |row| && forall j :: 0 <= j < |row| ==> ParseBoolean(tokens[j]) == row[j]
    ensures ParseRow(line) == row
  {
  }

  /** A non-empty row survives writing and parsing. */
  lemma RowRoundTrip(row: seq<bool>)
    requires |row| >= 1
    ensures ParseRow("[" + Join(Tokens(row)) + "]") == row
  {
    var tokens := Tokens(row);
    StripRow(tokens);
    SplitJoin(tokens);
    forall j | 0 <= j < |row|
      ensures ParseBoolean(tokens[j]) == row[j]
    {
      TokenParses(row[j]);
    }
    ParseRowOf("[" + Join(tokens) + "]", tokens, row);
  }

  /** A matrix whose rows all have entries survives writing and parsing. */
  lemma RoundTrip(matrix: seq<seq<bool>>)
    requires forall i :: 0 <= i < |matrix| ==> |matrix[i]| >= 1
    ensures ParseMatrix(Format(matrix)) == Ok(matrix)
  {
    var lines := Format(matrix);
    forall i | 0 <= i < |matrix|
      ensures ParseRow(lines[i + 1]) == matrix[i]
    {
      assert lines[i + 1] == "[" + Join(Tokens(matrix[i])) + "]";
      RowRoundTrip(matrix[i]);
    }
    assert ParseMatrix(lines).value == matrix;
  }

  /** A row without entries, "[]", is read as one false entry. */
  lemma EmptyRowIsOneFalse()
    ensures ParseRow("[]") == [false]
  {
    assert RemoveBrackets("[]") == "";
  }

  /** Letter case does not matter, and anything but "true" reads as false. */
  lemma ParseBooleanCases()
    ensures ParseBoolean("true") && ParseBoolean("TRUE") && ParseBoolean("True")
    ensures !ParseBoolean("false") && !ParseBoolean("yes") && !ParseBoolean(" true")
  {
  }

  /** The two-by-two file "[", "[true, false]", "[false, true]", "]". */
  lemma TwoByTwo()
    ensures ParseMatrix(["[", "[true, false]", "[false, true]", "]"]) == Ok([[true, false], [false, true]])
  {
    var m := [[true, false], [false, true]];
    assert Tokens(m[0]) == ["true", "false"] && Tokens(m[1]) == ["false", "true"];
    assert Join(["true", "false"]) == "true, false" && Join(["false", "true"]) == "false, true";
    assert "[" + "true, false" + "]" == "[true, false]" && "[" + "false, true" + "]" == "[false, true]";
    assert Format(m)[1] == "[true, false]" && Format(m)[2] == "[false, true]";
    assert Format(m) == ["[", "[true, false]", "[false, true]", "]"];
    RoundTrip(m);
  }
}
