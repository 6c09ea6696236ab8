/**
 * Reading delimited text: line breaks are normalized, the byte order mark and trailing blank
 * lines dropped, and every line split into fields.
 */
module DelimitedText {
  import opened Csv
  import opened Text

  const BOM := '\U{FEFF}'

  datatype Parsed = Parsed(headers: seq<string>, rows: seq<seq<string>>)

  // ---- Definitions ----

  function ReplaceCrLf(t: string): string
    decreases |t|
  {
    if t == "" then ""
    else if |t| >= 2 && t[0] == CR && t[1] == LF then [LF] + ReplaceCrLf(t[2..])
    else [t[0]] + ReplaceCrLf(t[1..])
  }

  function ReplaceCr(t: string): string
    decreases |t|
  {
    if t == "" then "" else [if t[0] == CR then LF else t[0]] + ReplaceCr(t[1..])
  }

  function Normalize(t: string): string {
    ReplaceCr(ReplaceCrLf(t))
  }

  function SplitLines(t: string): (lines: seq<string>)
    ensures lines != []
    decreases |t|
  {
    if t == "" then [""]
    else
      var rest := SplitLines(t[1..]);
      if t[0] == LF then [""] + rest else [[t[0]] + rest[0]] + rest[1..]
  }

  function StripBom(s: string): string {
    if s != "" && s[0] == BOM then s[1..] else s
  }

  function PopBlank(lines: seq<string>): seq<string>
    decreases |lines|
  {
    if lines != [] && IsBlank(lines[|lines| - 1]) then PopBlank(lines[..|lines| - 1]) else lines
  }

  function SplitAll(lines: seq<string>, delimiter: char): seq<seq<string>> {
    seq(|lines|, i requires 0 <= i < |lines| => Split(lines[i], delimiter))
  }

  function LinesOf(text: string): seq<string> {
    var lines := SplitLines(Normalize(text));
    PopBlank(lines[0 := StripBom(lines[0])])
  }

  function Parse(text: string, delimiter: char): Parsed {
    var matrix := SplitAll(LinesOf(text), delimiter);
    if matrix == [] then Parsed([], []) else Parsed(matrix[0], matrix[1..])
  }

  method ParseDelimitedText(text: string, delimiter: char) returns (parsed: Parsed)
    ensures parsed == Parse(text, delimiter)
  {
    var lines := SplitLines(Normalize(text));
    lines := lines[0 := StripBom(lines[0])];
    while lines != [] && IsBlank(lines[|lines| - 1])
      invariant PopBlank(lines) == LinesOf(text)
      decreases |lines|
    {
      lines := lines[..|lines| - 1];
    }
    var matrix: seq<seq<string>> := [];
    for i := 0 to |lines|
      invariant matrix == SplitAll(lines[..i], delimiter)
    {
      var fields := SplitCsvLine(lines[i], delimiter);
      matrix := matrix + [fields];
    }
    assert lines[..|lines|] == lines;
    parsed := if matrix == [] then Parsed([], []) else Parsed(matrix[0], matrix[1..]);
  }

  // ---- Line breaks ----

  predicate Breaks(c: char) {
    c == CR || c == LF
  }

  predicate OneLine(s: string) {
    forall c :: c in s ==> !Breaks(c)
  }

  /** How many line breaks a text has, CR LF counting once. */
  function BreakCount(t: string): nat
    decreases |t|
  {
    if t == "" then 0
    else if |t| >= 2 && t[0] == CR && t[1] == LF then 1 + BreakCount(t[2..])
    else (if Breaks(t[0]) then 1 else 0) + BreakCount(t[1..])
  }

  lemma {:induction false} LinesAreBreaksPlusOne(t: string)
    ensures |SplitLines(Normalize(t))| == 1 + BreakCount(t)
    decreases |t|
  {
    if t != "" {
      NormalizeHead(t);
      if |t| >= 2 && t[0] == CR && t[1] == LF {
        LinesAreBreaksPlusOne(t[2..]);
      } else {
        LinesAreBreaksPlusOne(t[1..]);
      }
    }
  }

  /** Normalizing goes break by break. */
  lemma NormalizeHead(t: string)
    requires t != ""
    ensures |t| >= 2 && t[0] == CR && t[1] == LF ==> Normalize(t) == [LF] + Normalize(t[2..])
    ensures !(|t| >= 2 && t[0] == CR && t[1] == LF) ==> Normalize(t) == [if Breaks(t[0]) then LF else t[0]] + Normalize(t[1..])
    ensures Normalize(t) != "" && SplitLines(Normalize(t)) ==
      (var rest := SplitLines(Normalize(t)[1..]);
      if Normalize(t)[0] == LF then [""] + rest else [[Normalize(t)[0]] + rest[0]] + rest[1..])
  {
    var u := ReplaceCrLf(t);
    if |t| >= 2 && t[0] == CR && t[1] == LF {
      assert u[1..] == ReplaceCrLf(t[2..]);
    } else {
      assert u[1..] == ReplaceCrLf(t[1..]);
    }
  }

  lemma {:induction false} BreaksAppend(a: string, b: string)
    requires !(a != "" && a[|a| - 1] == CR && b != "" && b[0] == LF)
    ensures BreakCount(a + b) == BreakCount(a) + BreakCount(b)
    decreases |a|
  {
    if a == "" {
      assert a + b == b;
    } else {
      assert (a + b)[1..] == a[1..] + b;
      if |a| >= 2 && a[0] == CR && a[1] == LF {
        assert (a + b)[2..] == a[2..] + b;
        BreaksAppend(a[2..], b);
      } else {
        BreaksAppend(a[1..], b);
      }
    }
  }

  lemma {:induction false} NoBreaks(t: string)
    ensures BreakCount(t) == 0 <==> OneLine(t)
    decreases |t|
  {
    if t != "" {
      assert t == [t[0]] + t[1..];
      NoBreaks(t[1..]);
      if |t| >= 2 && t[0] == CR && t[1] == LF {
        assert t[0] in t && Breaks(t[0]);
      }
    }
  }

  // ---- Clean lines are read back ----

  lemma {:induction false} ReadLastLine(line: string)
    requires OneLine(line)
    ensures SplitLines(Normalize(line)) == [line]
    decreases |line|
  {
    if line != "" {
      NormalizeHead(line);
      assert line[0] in line;
      ReadLastLine(line[1..]);
      assert [line[0]] + line[1..] == line;
    }
  }

  /** The three line breaks that are understood. */
  predicate IsBreak(separator: string) {
    separator == [CR, LF] || separator == [LF] || separator == [CR]
  }

  lemma {:induction false} ReadLine(line: string, separator: string, rest: string)
    requires OneLine(line) && IsBreak(separator)
    requires separator == [CR] ==> rest == "" || rest[0] != LF
    ensures SplitLines(Normalize(line + (separator + rest))) == [line] + SplitLines(Normalize(rest))
    decreases |line|
  {
    if line == "" {
      ReadBreak(separator, rest);
      assert line + (separator + rest) == separator + rest;
    } else {
      hide Normalize, SplitLines, Breaks, IsBreak, OneLine;
      FirstCharacter(line, separator + rest);
      ReadLine(line[1..], separator, rest);
      OneMoreCharacter(line + (separator + rest), line, SplitLines(Normalize(rest)));
    }
  }

  lemma FirstCharacter(line: string, rest: string)
    requires OneLine(line) && line != ""
    ensures (line + rest)[0] == line[0] && !Breaks(line[0]) && (line + rest)[1..] == line[1..] + rest && OneLine(line[1..])
  {
    assert line[0] in line;
  }

  lemma ReadBreak(separator: string, rest: string)
    requires IsBreak(separator) && (separator == [CR] ==> rest == "" || rest[0] != LF)
    ensures SplitLines(Normalize(separator + rest)) == [""] + SplitLines(Normalize(rest))
  {
    NormalizeHead(separator + rest);
    assert (separator + rest)[|separator|..] == rest;
    hide Normalize, SplitLines;
  }

  lemma OneMoreCharacter(t: string, line: string, rest: seq<string>)
    requires t != "" && line != "" && t[0] == line[0] && !Breaks(t[0])
    requires SplitLines(Normalize(t[1..])) == [line[1..]] + rest
    ensures SplitLines(Normalize(t)) == [line] + rest
  {
    NormalizeHead(t);
    hide Normalize, SplitLines;
    assert Normalize(t)[1..] == Normalize(t[1..]);
    assert [line[0]] + line[1..] == line;
  }

  /** Lines come back one by one, whichever break is between them. */
  lemma {:induction false} ReadLines(lines: seq<string>, separator: string)
    requires lines != [] && IsBreak(separator) && forall i :: 0 <= i < |lines| ==> OneLine(lines[i])
    ensures SplitLines(Normalize(Join(lines, separator))) == lines
    ensures Join(lines, separator) != "" && separator != [LF] ==> Join(lines, separator)[0] != LF
    decreases |lines|
  {
    hide Normalize, SplitLines, Join, OneLine;
    JoinParts(lines, separator);
    StartsPlain(lines[0]);
    if |lines| == 1 {
      ReadLastLine(lines[0]);
    } else {
      ReadLines(lines[1..], separator);
      ReadLine(lines[0], separator, Join(lines[1..], separator));
    }
  }

  lemma JoinParts(lines: seq<string>, separator: string)
    requires lines != []
    ensures |lines| == 1 ==> Join(lines, separator) == lines[0] && lines == [lines[0]]
    ensures |lines| > 1 ==> Join(lines, separator) == lines[0] + (separator + Join(lines[1..], separator))
  {}

  lemma StartsPlain(line: string)
    requires OneLine(line)
    ensures line != "" ==> line[0] != LF
  {
    assert line != "" ==> line[0] in line;
  }

  function LastLine(t: string): string {
    var lines := SplitLines(Normalize(t));
    lines[|lines| - 1]
  }

  predicate EndsWith(s: string, end: string) {
    |s| >= |end| && s[|s| - |end|..] == end
  }

  /** One more character in front only matters when the text has a single line. */
  lemma LastLineStep(t: string)
    requires t != ""
    ensures var next := if |t| >= 2 && t[0] == CR && t[1] == LF then t[2..] else t[1..];
      LastLine(t) == LastLine(next) || LastLine(t) == [t[0]] + LastLine(next)
  {
    hide Normalize, SplitLines;
    NormalizeHead(t);
  }

  lemma EndsWithLonger(c: char, s: string, end: string)
    requires EndsWith(s, end)
    ensures EndsWith([c] + s, end)
  {
    assert ([c] + s)[|s| + 1 - |end|..] == s[|s| - |end|..];
  }

  /** The last line of any text ends with every break-free end of that text. */
  lemma {:induction false} LastLineEnds(front: string, end: string)
    requires OneLine(end)
    ensures EndsWith(LastLine(front + end), end)
    decreases |front|
  {
    hide LastLine;
    var t := front + end;
    if front == "" {
      assert t == end;
      LastOfOneLine(end);
    } else {
      assert end == "" || end[0] in end;
      var cut := if |t| >= 2 && t[0] == CR && t[1] == LF then 2 else 1;
      assert t[cut..] == front[cut..] + end;
      LastLineEnds(front[cut..], end);
      LastLineStep(t);
      EndsWithLonger(t[0], LastLine(t[cut..]), end);
    }
  }

  lemma LastOfOneLine(line: string)
    requires OneLine(line)
    ensures EndsWith(LastLine(line), line)
  {
    ReadLastLine(line);
  }

  // ---- Whole texts ----

  lemma {:induction false} BlanksGo(front: seq<string>, blanks: seq<string>)
    requires forall i :: 0 <= i < |blanks| ==> IsBlank(blanks[i])
    requires front != [] ==> !IsBlank(front[|front| - 1])
    ensures PopBlank(front + blanks) == front
    decreases |blanks|
  {
    hide IsBlank;
    var lines := front + blanks;
    if blanks == [] {
      assert lines == front;
    } else {
      assert lines[..|lines| - 1] == front + blanks[..|blanks| - 1];
      BlanksGo(front, blanks[..|blanks| - 1]);
    }
  }

  /**
   * A text of lines, with or without a byte order mark, with any of the three breaks between the lines and any
   * number of blank lines at its end, is read as exactly the lines before those, each split into fields.
   */
  lemma TextIsRead(front: seq<string>, blanks: seq<string>, separator: string, marked: bool, delimiter: char)
    requires front + blanks != [] && IsBreak(separator)
    requires (forall i :: 0 <= i < |front| ==> OneLine(front[i])) && forall i :: 0 <= i < |blanks| ==> OneLine(blanks[i]) && IsBlank(blanks[i])
    requires front != [] ==> !IsBlank(front[|front| - 1])
    requires !marked ==> (front + blanks)[0] == "" || (front + blanks)[0][0] != BOM
    ensures var text := (if marked then [BOM] else []) + Join(front + blanks, separator);
      Parse(text, delimiter) ==
        if front == [] then Parsed([], [])
        else Parsed(Split(front[0], delimiter), seq(|front| - 1, i requires 0 <= i < |front| - 1 => Split(front[i + 1], delimiter)))
  {
    hide IsBlank, Split, OneLine, PopBlank, SplitLines, Normalize, Join;
    var lines := front + blanks;
    var read := if marked then lines[0 := [BOM] + lines[0]] else lines;
    if marked {
      MarkInFront(lines, separator);
      MarkIsOneLine(lines[0]);
    } else {
      assert [] + Join(lines, separator) == Join(lines, separator);
    }
    ReadLines(read, separator);
    assert StripBom(read[0]) == lines[0];
    assert read[0 := lines[0]] == lines;
    BlanksGo(front, blanks);
    assert LinesOf((if marked then [BOM] else []) + Join(lines, separator)) == front;
  }

  lemma MarkInFront(lines: seq<string>, separator: string)
    requires lines != []
    ensures Join(lines[0 := [BOM] + lines[0]], separator) == [BOM] + Join(lines, separator)
  {
    var marked := lines[0 := [BOM] + lines[0]];
    if |lines| > 1 {
      assert marked[1..] == lines[1..];
      assert [BOM] + lines[0] + separator + Join(lines[1..], separator) == [BOM] + (lines[0] + separator + Join(lines[1..], separator));
    }
  }

  lemma MarkIsOneLine(line: string)
    requires OneLine(line)
    ensures OneLine([BOM] + line)
  {}
}
