/**
  Text as lines (agents/src/merge.ts, `splitLines`): every line keeps its terminator.
 */
module Lines {

  datatype Line = Line(text: string)

  /** Length of the first line, terminator included. */
  function FirstLine(text: string): (n: nat)
    requires text != ""
    ensures 0 < n <= |text|
    ensures forall i :: 0 <= i < n - 1 ==> text[i] != '\n'
    ensures n < |text| ==> text[n - 1] == '\n'
  {
    if text[0] == '\n' || |text| == 1 then 1 else 1 + FirstLine(text[1..])
  }

  /** Line by line; a last line without a newline is a line too. */
  function SplitLines(text: string): (lines: seq<Line>)
    decreases |text|
  {
    if text == "" then [] else [Line(text[..FirstLine(text)])] + SplitLines(text[FirstLine(text)..])
  }

  /** The lines put together again. */
  function Join(lines: seq<Line>): (text: string)
  {
    if lines == [] then "" else lines[0].text + Join(lines[1..])
  }

  /** What splitting produces: no empty line, a newline only at the end of a line,
      and at the end of every line but possibly the last. */
  ghost predicate IsLines(lines: seq<Line>)
  {
    forall i :: 0 <= i < |lines| ==> IsLine(lines[i].text, i == |lines| - 1)
  }

  ghost predicate IsLine(line: string, last: bool)
  {
    line != "" && (forall j :: 0 <= j < |line| - 1 ==> line[j] != '\n') && (last || line[|line| - 1] == '\n')
  }

  /** Splitting loses nothing. */
  lemma {:induction false} JoinSplit(text: string)
    ensures Join(SplitLines(text)) == text
    decreases |text|
  {
    if text != "" {
      var n := FirstLine(text);
      JoinSplit(text[n..]);
      JoinCons(Line(text[..n]), SplitLines(text[n..]));
      assert text == text[..n] + text[n..];
    }
  }

  lemma JoinCons(line: Line, rest: seq<Line>)
    ensures Join([line] + rest) == line.text + Join(rest)
  {
    assert ([line] + rest)[1..] == rest;
  }

  /** Splitting makes lines. */
  lemma {:induction false} SplitIsLines(text: string)
    ensures IsLines(SplitLines(text))
    decreases |text|
  {
    if text != "" {
      var n := FirstLine(text);
      var lines, rest := SplitLines(text), SplitLines(text[n..]);
      SplitIsLines(text[n..]);
      assert IsLine(text[..n], n == |text|);
      assert n == |text| <==> rest == [];
      forall i | 0 <= i < |lines|
        ensures IsLine(lines[i].text, i == |lines| - 1)
      {
        assert i > 0 ==> lines[i] == rest[i - 1];
      }
    }
  }

  /** Lines split back into themselves. */
  lemma {:induction false} SplitJoin(lines: seq<Line>)
    requires IsLines(lines)
    ensures SplitLines(Join(lines)) == lines
    decreases |lines|
  {
    if lines != [] {
      var line, rest := lines[0].text, Join(lines[1..]);
      assert IsLine(line, |lines| == 1);
      forall i | 0 <= i < |lines[1..]|
        ensures IsLine(lines[1..][i].text, i == |lines[1..]| - 1)
      {
        assert IsLine(lines[i + 1].text, i + 1 == |lines| - 1);
      }
      SplitJoin(lines[1..]);
      FirstLineIs(line, rest, |lines| == 1);
      assert Join(lines)[..|line|] == line && Join(lines)[|line|..] == rest;
    }
  }

  lemma {:induction false} FirstLineIs(line: string, rest: string, last: bool)
    requires IsLine(line, last) && (last ==> rest == "")
    ensures FirstLine(line + rest) == |line|
    decreases |line|
  {
    if |line| > 1 {
      assert IsLine(line[1..], last);
      assert (line + rest)[1..] == line[1..] + rest;
      FirstLineIs(line[1..], rest, last);
    }
  }
}
