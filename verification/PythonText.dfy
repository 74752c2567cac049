/**
 * The parts of Python's text handling that the tools rely on: what ends a line, what counts as white
 * space, and how lines that were joined are split again.
 */
module PythonText {

  /** The characters at which `str.splitlines` ends a line. */
  predicate IsLineBoundary(c: char) {
    || '\U{000A}' <= c <= '\U{000D}' || '\U{001C}' <= c <= '\U{001E}'
    || c == '\U{0085}' || c == '\U{2028}' || c == '\U{2029}'
  }

  /** The characters that `str.isspace` accepts, `str.strip` removes and `\s` matches. */
  predicate IsSpace(c: char) {
    || '\U{0009}' <= c <= '\U{000D}' || '\U{001C}' <= c <= '\U{0020}'
    || c == '\U{0085}' || c == '\U{00A0}' || c == '\U{1680}' || '\U{2000}' <= c <= '\U{200A}'
    || c == '\U{2028}' || c == '\U{2029}' || c == '\U{202F}' || c == '\U{205F}' || c == '\U{3000}'
  }

  predicate OneLine(text: string) {
    forall i | 0 <= i < |text| :: !IsLineBoundary(text[i])
  }

  /** The length of the first line. */
  function FirstLine(text: string): (n: nat)
    ensures n <= |text| && OneLine(text[..n])
    ensures n < |text| ==> IsLineBoundary(text[n])
  {
    if text == "" || IsLineBoundary(text[0]) then 0
    else
      var n := 1 + FirstLine(text[1..]);
      assert text[..n] == [text[0]] + text[1..][..n - 1];
      n
  }

  /** `str.splitlines()`. */
  function SplitLines(text: string): seq<string> {
    if text == "" then []
    else
      var n := FirstLine(text);
      if n == |text| then [text]
      else if "\r\n" <= text[n..] then [text[..n]] + SplitLines(text[n + 2..])
      else [text[..n]] + SplitLines(text[n + 1..])
  }

  /** `str.lstrip()`. */
  function LeftStrip(text: string): string {
    if text != "" && IsSpace(text[0]) then LeftStrip(text[1..]) else text
  }

  /** `str.rstrip()`. */
  function RightStrip(text: string): string {
    if text != "" && IsSpace(text[|text| - 1]) then RightStrip(text[..|text| - 1]) else text
  }

  /** `str.strip()`. */
  function Strip(text: string): string {
    RightStrip(LeftStrip(text))
  }

  lemma {:induction false} NothingLeftOfSpaces(text: string)
    ensures LeftStrip(text) == "" <==> forall i | 0 <= i < |text| :: IsSpace(text[i])
  {
    if text != "" && IsSpace(text[0]) {
      NothingLeftOfSpaces(text[1..]);
      assert text == [text[0]] + text[1..];
    }
  }

  lemma {:induction false} RightStripKeepsFirst(text: string)
    requires text != "" && !IsSpace(text[0])
    ensures RightStrip(text) != ""
  {
    if IsSpace(text[|text| - 1]) {
      RightStripKeepsFirst(text[..|text| - 1]);
    }
  }

  lemma {:induction false} LeftStripEnds(text: string)
    ensures LeftStrip(text) == "" || !IsSpace(LeftStrip(text)[0])
  {
    if text != "" && IsSpace(text[0]) {
      LeftStripEnds(text[1..]);
    }
  }

  /** Something is left exactly of a text that is not all white space. */
  lemma StripLeavesText(text: string)
    ensures Strip(text) != "" <==> exists i | 0 <= i < |text| :: !IsSpace(text[i])
  {
    NothingLeftOfSpaces(text);
    LeftStripEnds(text);
    if LeftStrip(text) != "" {
      RightStripKeepsFirst(LeftStrip(text));
    }
  }

  /** The lines of a text file that ends every line with a line feed. */
  function JoinLines(lines: seq<string>): string {
    if lines == [] then "" else lines[0] + "\n" + JoinLines(lines[1..])
  }

  lemma {:induction false} FirstLineStops(line: string, rest: string)
    requires OneLine(line)
    requires rest == "" || IsLineBoundary(rest[0])
    ensures FirstLine(line + rest) == |line|
  {
    if line == "" {
      assert line + rest == rest;
    } else {
      assert (line + rest)[1..] == line[1..] + rest;
      FirstLineStops(line[1..], rest);
    }
  }

  lemma SplitLinesHead(line: string, rest: string)
    requires OneLine(line)
    ensures SplitLines(line + "\n" + rest) == [line] + SplitLines(rest)
  {
    var text := line + "\n" + rest;
    assert text == line + ("\n" + rest);
    FirstLineStops(line, "\n" + rest);
    assert text[..|line|] == line && text[|line| + 1..] == rest;
    assert text[|line|..][0] == '\n';
  }

  /** What ends a line in front of a text. */
  predicate Separates(end: string, tail: string) {
    || end == "\r\n"
    || (|end| == 1 && IsLineBoundary(end[0]) && (end[0] == '\r' && tail != "" ==> tail[0] != '\n'))
  }

  lemma Grouped(a: string, b: string, c: string)
    ensures a + b + c == a + (b + c)
  {
  }

  lemma SplitStep(line: string, end: string, tail: string)
    requires OneLine(line) && Separates(end, tail)
    ensures SplitLines(line + end + tail) == [line] + SplitLines(tail)
  {
    var text, rest := line + end + tail, end + tail;
    Grouped(line, end, tail);
    FirstLineStops(line, rest);
    assert text[..|line|] == line && text[|line|..] == rest;
    assert rest[..|end|] == end && rest[|end|..] == tail;
    EndsLine(end, tail);
    Dropped(text, |line|, |end|);
  }

  lemma EndsLine(end: string, tail: string)
    requires Separates(end, tail)
    ensures "\r\n" <= end + tail <==> |end| == 2
  {
    var rest := end + tail;
    if |end| == 1 && tail != "" {
      assert rest[0] == end[0] && rest[1] == tail[0];
    }
  }

  lemma Dropped(text: string, n: nat, k: nat)
    requires n + k <= |text|
    ensures text[n..][k..] == text[n + k..]
  {
  }

  /** A text of more than one line starts with a line and its end. */
  lemma FirstLineOf(text: string) returns (line: string, end: string, tail: string)
    requires !OneLine(text)
    ensures text == line + end + tail && OneLine(line) && Separates(end, tail)
  {
    var n := FirstLine(text);
    assert text[..|text|] == text;
    var k := if "\r\n" <= text[n..] then 2 else 1;
    line, end, tail := text[..n], text[n..n + k], text[n + k..];
    assert text == line + end + tail;
    assert text[n..] == end + tail;
  }

  /** The first line goes on in front of a text; all others stay. */
  lemma SplitLinesPrefixed(prefix: string, text: string)
    requires OneLine(prefix) && text != ""
    ensures SplitLines(text) != [] && SplitLines(prefix + text) == [prefix + SplitLines(text)[0]] + SplitLines(text)[1..]
  {
    if OneLine(text) {
      SplitOneLine(text);
      SplitOneLine(prefix + text);
    } else {
      var line, end, tail := FirstLineOf(text);
      SplitStep(line, end, tail);
      SplitStep(prefix + line, end, tail);
      GroupedBehind(prefix, line, end, tail);
      HeadAndRest(line, SplitLines(tail), []);
    }
  }

  lemma SplitOneLine(text: string)
    requires OneLine(text) && text != ""
    ensures SplitLines(text) == [text]
  {
    assert text + "" == text;
    FirstLineStops(text, "");
  }

  /** A text that ends inside a line, and what follows on the next one, are split apart. */
  lemma {:induction false} SplitLinesJoined(text: string, rest: string)
    requires text != "" && !IsLineBoundary(text[|text| - 1])
    ensures SplitLines(text + "\n" + rest) == SplitLines(text) + SplitLines(rest)
    decreases |text|
  {
    if OneLine(text) {
      SplitOneLine(text);
      SplitLinesHead(text, rest);
    } else {
      var line, end, tail := FirstLineOf(text);
      LastOfParts(line, end, tail);
      SplitStep(line, end, tail);
      SplitLinesJoined(tail, rest);
      StillSeparates(end, tail, "\n" + rest);
      Grouped(tail, "\n", rest);
      SplitStep(line, end, tail + "\n" + rest);
      GroupedBefore(line, end, tail, "\n", rest);
      HeadAndRest(line, SplitLines(tail), SplitLines(rest));
    }
  }

  lemma StillSeparates(end: string, tail: string, more: string)
    requires Separates(end, tail) && tail != ""
    ensures Separates(end, tail + more)
  {
  }

  lemma LastOfParts(line: string, end: string, tail: string)
    requires Separates(end, tail)
    ensures var text := line + end + tail;
            if tail == "" then IsLineBoundary(text[|text| - 1]) else text[|text| - 1] == tail[|tail| - 1]
  {
    Grouped(line, end, tail);
    var text := line + end + tail;
    assert tail == "" ==> text == line + end && text[|text| - 1] == end[|end| - 1];
  }

  lemma GroupedBehind(a: string, b: string, c: string, d: string)
    ensures a + (b + c + d) == (a + b) + c + d
  {
  }

  lemma GroupedBefore(a: string, b: string, c: string, d: string, e: string)
    ensures a + b + c + d + e == a + b + (c + d + e)
  {
  }

  lemma HeadAndRest(x: string, rest: seq<string>, more: seq<string>)
    ensures ([x] + rest)[0] == x && ([x] + rest)[1..] == rest
    ensures [x] + rest + more == [x] + (rest + more)
  {
  }

  /** Reading back the lines of a file returns them exactly when none of them is itself broken. */
  lemma {:induction false} SplitInvertsJoin(lines: seq<string>)
    requires forall i | 0 <= i < |lines| :: OneLine(lines[i])
    ensures SplitLines(JoinLines(lines)) == lines
  {
    if lines != [] {
      SplitLinesHead(lines[0], JoinLines(lines[1..]));
      SplitInvertsJoin(lines[1..]);
    }
  }

  lemma {:induction false} SplitLinesAreLines(text: string)
    ensures forall i | 0 <= i < |SplitLines(text)| :: OneLine(SplitLines(text)[i])
    decreases |text|
  {
    if text != "" {
      var n := FirstLine(text);
      if n < |text| {
        SplitLinesAreLines(text[if "\r\n" <= text[n..] then n + 2 else n + 1..]);
      }
    }
  }
}
