/**
 * The race results export and its way back through the delimited text parser.
 */
module ResultsCsv {
  import opened Csv
  import opened DelimitedText
  import opened RaceResults
  import opened RaceRanking
  import opened Text

  const HEADER_NAMES := ["bib", "rank", "finish_time", "points", "dnf", "dnfLap", "laps_completed", "dns", "dsq", "rank_at_finish", "remark"]
  const HEADER := Join(HEADER_NAMES, [SEPARATOR])

  // ---- Definitions ----

  function BoolToString(b: bool): string {
    if b then "true" else "false"
  }

  function DnfToString(dnf: Dnf): string {
    match dnf
    case NotDnf => "false"
    case PlainDnf => "dnf"
    case Elimination => "elimination"
  }

  function Remark(r: RaceResult): string {
    if r.dns then "DNS" else if r.dsq then "DSQ" else ""
  }

  function Fields(r: RaceResult): seq<string> {
    [
      IntToString(r.bib),
      if r.dns then "" else if r.rank > 0 then IntToString(r.rank) else "",
      r.finishTime,
      IntToString(r.points),
      DnfToString(r.dnf),
      IntToString(r.dnfLap),
      IntToString(r.lapsCompleted),
      BoolToString(r.dns),
      BoolToString(r.dsq),
      if r.finishRank > 0 then IntToString(r.finishRank) else "",
      Remark(r)
    ]
  }

  /** Ranks are recomputed, then the rows go in standings order. */
  function Exported(results: seq<RaceResult>): seq<RaceResult> {
    SortForStandings(Recompute(results))
  }

  function RowLines(rows: seq<RaceResult>): seq<string> {
    seq(|rows|, i requires 0 <= i < |rows| => RowLine(Fields(rows[i])))
  }

  function Build(results: seq<RaceResult>): string {
    [BOM] + Join([HEADER] + RowLines(Exported(results)), [CR, LF])
  }

  /** What a reader of the export should see. */
  function Expected(results: seq<RaceResult>): Parsed {
    var rows := Exported(results);
    Parsed(HEADER_NAMES, seq(|rows|, i requires 0 <= i < |rows| => Fields(rows[i])))
  }

  method BuildRaceResultsCsv(results: seq<RaceResult>) returns (text: string)
    ensures text == Build(results)
  {
    hide Fields, RowLine, Join, Recompute, SortForStandings;
    var ranked := RecomputeRaceResults(results);
    var sorted := SortForStandings(ranked);
    var lines := [HEADER];
    for i := 0 to |sorted|
      invariant lines == [HEADER] + RowLines(sorted[..i])
    {
      lines := lines + [RowLine(Fields(sorted[i]))];
    }
    assert sorted[..|sorted|] == sorted;
    text := [BOM] + Join(lines, [CR, LF]);
  }

  // ---- What a line tells about its row ----

  function Positive(n: int): int {
    if n > 0 then n else 0
  }

  lemma OptionalNumber(a: int, b: int)
    ensures (if a > 0 then IntToString(a) else "") == (if b > 0 then IntToString(b) else "") <==> Positive(a) == Positive(b)
  {
    hide IntToString;
    IntToStringInjective(a, b);
    IntToStringNotEmpty(a);
    IntToStringNotEmpty(b);
  }

  lemma NamesDiffer(a: RaceResult, b: RaceResult)
    ensures DnfToString(a.dnf) == DnfToString(b.dnf) <==> a.dnf == b.dnf
    ensures BoolToString(a.dns) == BoolToString(b.dns) <==> a.dns == b.dns
    ensures BoolToString(a.dsq) == BoolToString(b.dsq) <==> a.dsq == b.dsq
  {
    assert |DnfToString(a.dnf)| == (match a.dnf case NotDnf => 5 case PlainDnf => 3 case Elimination => 11);
    assert |DnfToString(b.dnf)| == (match b.dnf case NotDnf => 5 case PlainDnf => 3 case Elimination => 11);
    assert |BoolToString(true)| == 4 && |BoolToString(false)| == 5;
  }

  /** Two rows have the same line exactly when they agree on all that is exported: nothing is dropped or mixed up. */
  lemma FieldsTellTheRow(a: RaceResult, b: RaceResult)
    ensures Fields(a) == Fields(b) <==>
      && a.bib == b.bib && a.finishTime == b.finishTime && a.points == b.points
      && a.dnf == b.dnf && a.dnfLap == b.dnfLap && a.lapsCompleted == b.lapsCompleted
      && a.dns == b.dns && a.dsq == b.dsq
      && (!a.dns ==> Positive(a.rank) == Positive(b.rank)) && Positive(a.finishRank) == Positive(b.finishRank)
  {
    hide IntToString, DnfToString, BoolToString, Positive;
    FieldByField(a, b);
    NamesDiffer(a, b);
    IntToStringInjective(a.bib, b.bib);
    IntToStringInjective(a.points, b.points);
    IntToStringInjective(a.dnfLap, b.dnfLap);
    IntToStringInjective(a.lapsCompleted, b.lapsCompleted);
    OptionalNumber(a.rank, b.rank);
    OptionalNumber(a.finishRank, b.finishRank);
  }

  lemma FieldByField(a: RaceResult, b: RaceResult)
    ensures Fields(a) == Fields(b) <==>
      && Fields(a)[0] == Fields(b)[0] && Fields(a)[1] == Fields(b)[1] && Fields(a)[2] == Fields(b)[2]
      && Fields(a)[3] == Fields(b)[3] && Fields(a)[4] == Fields(b)[4] && Fields(a)[5] == Fields(b)[5]
      && Fields(a)[6] == Fields(b)[6] && Fields(a)[7] == Fields(b)[7] && Fields(a)[8] == Fields(b)[8]
      && Fields(a)[9] == Fields(b)[9] && Fields(a)[10] == Fields(b)[10]
  {
    hide IntToString, DnfToString, BoolToString, Remark;
  }

  // ---- Which fields can hold a line break ----

  lemma IntIsPlain(n: int)
    ensures OneLine(IntToString(n))
  {
    DigitsArePlain(if n < 0 then -n else n);
  }

  lemma OnlyTheTimeBreaks(r: RaceResult)
    ensures (forall i :: 0 <= i < |Fields(r)| ==> OneLine(Fields(r)[i])) <==> OneLine(r.finishTime)
  {
    hide IntToString, OneLine;
    var f := Fields(r);
    PlainFields(r);
    assert f[2] == r.finishTime;
    forall i | 0 <= i < |f| && i != 2 ensures OneLine(f[i]) {
      assert i == 0 || i == 1 || i == 3 || i == 4 || i == 5 || i == 6 || i == 7 || i == 8 || i == 9 || i == 10;
    }
  }

  lemma WordsArePlain(r: RaceResult)
    ensures OneLine("") && OneLine(DnfToString(r.dnf)) && OneLine(BoolToString(r.dns)) && OneLine(BoolToString(r.dsq)) && OneLine(Remark(r))
  {}

  lemma PlainFields(r: RaceResult)
    ensures OneLine("") && OneLine(DnfToString(r.dnf)) && OneLine(BoolToString(r.dns)) && OneLine(BoolToString(r.dsq)) && OneLine(Remark(r))
    ensures OneLine(IntToString(r.bib)) && OneLine(IntToString(r.rank)) && OneLine(IntToString(r.points)) && OneLine(IntToString(r.dnfLap))
    ensures OneLine(IntToString(r.lapsCompleted)) && OneLine(IntToString(r.finishRank))
  {
    hide IntToString, DnfToString, BoolToString, Remark, OneLine;
    WordsArePlain(r);
    IntIsPlain(r.bib);
    IntIsPlain(r.rank);
    IntIsPlain(r.points);
    IntIsPlain(r.dnfLap);
    IntIsPlain(r.lapsCompleted);
    IntIsPlain(r.finishRank);
  }

  lemma {:induction false} QuotesKeepBreaks(s: string, c: char)
    requires c != QUOTE
    ensures c in DoubleQuotes(s) <==> c in s
    decreases |s|
  {
    if s != "" {
      assert s == [s[0]] + s[1..];
      QuotesKeepBreaks(s[1..], c);
    }
  }

  lemma EscapeKeepsBreaks(s: string)
    ensures OneLine(Escape(s)) <==> OneLine(s)
  {
    hide DoubleQuotes;
    QuotesKeepBreaks(s, CR);
    QuotesKeepBreaks(s, LF);
  }

  lemma {:induction false} RowLineBreaks(row: seq<string>)
    ensures OneLine(RowLine(row)) <==> forall i :: 0 <= i < |row| ==> OneLine(row[i])
    decreases |row|
  {
    hide Escape;
    if |row| == 1 {
      EscapeKeepsBreaks(row[0]);
    } else if |row| > 1 {
      EscapeKeepsBreaks(row[0]);
      RowLineBreaks(row[1..]);
      assert EscapeAll(row)[1..] == EscapeAll(row[1..]);
      OneLineAround(Escape(row[0]), RowLine(row[1..]));
      assert RowLine(row) == Escape(row[0]) + [SEPARATOR] + RowLine(row[1..]);
      assert row == [row[0]] + row[1..];
    }
  }

  lemma OneLineAround(a: string, b: string)
    ensures OneLine(a + [SEPARATOR] + b) <==> OneLine(a) && OneLine(b)
  {
    assert forall c :: c in a + [SEPARATOR] + b <==> c in a || c == SEPARATOR || c in b;
  }

  // ---- No line breaks: the export is read back ----

  lemma PlainWord(s: string)
    requires forall i :: 0 <= i < |s| ==> !Special(s[i])
    ensures Escape(s) == s && OneLine(s)
  {}

  lemma NamesArePlain(i: nat)
    requires i < |HEADER_NAMES|
    ensures Escape(HEADER_NAMES[i]) == HEADER_NAMES[i] && OneLine(HEADER_NAMES[i])
  {
    hide Escape, OneLine;
    PlainWord("bib");
    PlainWord("rank");
    PlainWord("finish_time");
    PlainWord("points");
    PlainWord("dnf");
    PlainWord("dnfLap");
    PlainWord("laps_completed");
    PlainWord("dns");
    PlainWord("dsq");
    PlainWord("rank_at_finish");
    PlainWord("remark");
  }

  lemma HeaderIsItsNames()
    ensures RowLine(HEADER_NAMES) == HEADER && OneLine(HEADER) && !IsBlank(HEADER)
  {
    hide Escape, OneLine, Join, IsBlank;
    forall i | 0 <= i < |HEADER_NAMES| ensures Escape(HEADER_NAMES[i]) == HEADER_NAMES[i] && OneLine(HEADER_NAMES[i]) {
      NamesArePlain(i);
    }
    assert EscapeAll(HEADER_NAMES) == HEADER_NAMES;
    RowLineBreaks(HEADER_NAMES);
    RowLineHasSeparator(HEADER_NAMES);
  }

  /** A row's line always has a separator, so it is never blank. */
  lemma RowLineHasSeparator(row: seq<string>)
    requires |row| > 1
    ensures !IsBlank(RowLine(row))
  {
    hide Escape;
    assert EscapeAll(row)[0] == Escape(row[0]);
    assert SEPARATOR in RowLine(row);
    assert !IsSpace(SEPARATOR);
  }

  lemma CleanLines(rows: seq<RaceResult>)
    requires forall i :: 0 <= i < |rows| ==> OneLine(rows[i].finishTime)
    ensures LinesOf([BOM] + Join([HEADER] + RowLines(rows), [CR, LF])) == [HEADER] + RowLines(rows)
  {
    hide Fields, RowLine, OneLine, Normalize, SplitLines, Join, IsBlank;
    var lines := [[BOM] + HEADER] + RowLines(rows);
    HeaderIsItsNames();
    MarkIsOneLine(HEADER);
    forall i | 0 <= i < |lines| ensures OneLine(lines[i]) {
      if i > 0 {
        OnlyTheTimeBreaks(rows[i - 1]);
        RowLineBreaks(Fields(rows[i - 1]));
      }
    }
    MarkInFront([HEADER] + RowLines(rows), [CR, LF]);
    assert ([HEADER] + RowLines(rows))[0 := [BOM] + HEADER] == lines;
    ReadLines(lines, [CR, LF]);
    assert lines[0 := StripBom(lines[0])] == [HEADER] + RowLines(rows);
    if rows != [] {
      FieldCount(rows[|rows| - 1]);
      RowLineHasSeparator(Fields(rows[|rows| - 1]));
    }
  }

  lemma FieldCount(r: RaceResult)
    ensures |Fields(r)| == |HEADER_NAMES| == 11
  {}

  lemma LineSplits(row: seq<string>)
    requires |row| == 11
    ensures Split(RowLine(row), SEPARATOR) == row
  {
    hide RowLine, Split;
    SplitOfJoin(row);
  }

  lemma HeaderSplits()
    ensures Split(HEADER, SEPARATOR) == HEADER_NAMES
  {
    hide RowLine, Split, Join;
    HeaderIsItsNames();
    LineSplits(HEADER_NAMES);
  }

  /** All lines of a clean export, split into their fields. */
  lemma LinesSplit(rows: seq<RaceResult>, header: string, names: seq<string>)
    requires Split(header, SEPARATOR) == names
    ensures SplitAll([header] + RowLines(rows), SEPARATOR) == [names] + seq(|rows|, i requires 0 <= i < |rows| => Fields(rows[i]))
  {
    hide Fields, RowLine, Split;
    var lines := [header] + RowLines(rows);
    forall i | 0 <= i < |rows| ensures Split(lines[i + 1], SEPARATOR) == Fields(rows[i]) {
      FieldCount(rows[i]);
      LineSplits(Fields(rows[i]));
    }
  }

  lemma CleanExportIsReadBack(results: seq<RaceResult>)
    requires forall i :: 0 <= i < |Exported(results)| ==> OneLine(Exported(results)[i].finishTime)
    ensures Parse(Build(results), SEPARATOR) == Expected(results)
  {
    hide Fields, RowLine, RowLines, OneLine, Exported, Split, SplitAll, LinesOf, Join;
    var rows := Exported(results);
    CleanLines(rows);
    HeaderSplits();
    LinesSplit(rows, HEADER, HEADER_NAMES);
    var matrix := SplitAll([HEADER] + RowLines(rows), SEPARATOR);
    assert matrix[1..] == Expected(results).rows;
  }

  // ---- A line break in a finish time: too many rows ----

  function SumBreaks(lines: seq<string>): nat
    decreases |lines|
  {
    if lines == [] then 0 else BreakCount(lines[0]) + SumBreaks(lines[1..])
  }

  lemma {:induction false} JoinBreaks(lines: seq<string>)
    requires lines != []
    ensures BreakCount(Join(lines, [CR, LF])) == SumBreaks(lines) + |lines| - 1
    decreases |lines|
  {
    if |lines| == 1 {
      assert lines[1..] == [];
    } else {
      JoinBreaks(lines[1..]);
      var rest := Join(lines[1..], [CR, LF]);
      BreaksAppend(lines[0], [CR, LF] + rest);
      CrLfBreaks(rest);
      assert lines[0] + [CR, LF] + rest == lines[0] + ([CR, LF] + rest);
    }
  }

  lemma CrLfBreaks(rest: string)
    ensures BreakCount([CR, LF] + rest) == 1 + BreakCount(rest)
  {
    assert ([CR, LF] + rest)[2..] == rest;
  }

  lemma {:induction false} SumHasBreak(lines: seq<string>, i: nat)
    requires i < |lines| && !OneLine(lines[i])
    ensures SumBreaks(lines) > 0
    decreases |lines|
  {
    hide OneLine, BreakCount;
    if i == 0 {
      NoBreaks(lines[0]);
    } else {
      SumHasBreak(lines[1..], i - 1);
    }
  }

  /** The last line that the parser sees holds the end of the last row, so no line is dropped. */
  lemma {:induction false} JoinEnds(lines: seq<string>, end: string)
    requires lines != [] && EndsWith(lines[|lines| - 1], end)
    ensures EndsWith(Join(lines, [CR, LF]), end)
    decreases |lines|
  {
    if |lines| > 1 {
      JoinEnds(lines[1..], end);
      var rest := Join(lines[1..], [CR, LF]);
      EndsAfter(lines[0] + [CR, LF], rest, end);
    }
  }

  lemma EndsAfter(front: string, s: string, end: string)
    requires EndsWith(s, end)
    ensures EndsWith(front + s, end)
  {
    assert (front + s)[|front + s| - |end|..] == s[|s| - |end|..];
  }

  lemma {:induction false} RowLineEnds(row: seq<string>)
    requires |row| > 1
    ensures EndsWith(RowLine(row), [SEPARATOR] + Escape(row[|row| - 1]))
    decreases |row|
  {
    hide Escape;
    var end := [SEPARATOR] + Escape(row[|row| - 1]);
    assert EscapeAll(row)[1..] == EscapeAll(row[1..]);
    assert RowLine(row) == Escape(row[0]) + [SEPARATOR] + RowLine(row[1..]);
    if |row| == 2 {
      assert RowLine(row) == Escape(row[0]) + end;
      EndsAfter(Escape(row[0]), end, end);
    } else {
      RowLineEnds(row[1..]);
      EndsAfter(Escape(row[0]) + [SEPARATOR], RowLine(row[1..]), end);
    }
  }

  lemma LastLineNotBlank(text: string, end: string)
    requires OneLine(end) && SEPARATOR in end && EndsWith(text, end)
    ensures !IsBlank(LastLine(text))
  {
    hide LastLine, OneLine;
    var front := text[..|text| - |end|];
    assert text == front + end;
    LastLineEnds(front, end);
    var last := LastLine(text);
    assert last == last[..|last| - |end|] + end;
    assert SEPARATOR in last && !IsSpace(SEPARATOR);
  }

  lemma BrokenLines(rows: seq<RaceResult>, k: nat)
    requires k < |rows| && !OneLine(rows[k].finishTime)
    ensures |LinesOf([BOM] + Join([HEADER] + RowLines(rows), [CR, LF]))| > 1 + |rows|
  {
    hide Fields, RowLine, OneLine, Normalize, SplitLines, Join, IsBlank, BreakCount, SumBreaks, Escape, EndsWith, StripBom;
    var lines := [[BOM] + HEADER] + RowLines(rows);
    var text := Join(lines, [CR, LF]);
    MarkInFront([HEADER] + RowLines(rows), [CR, LF]);
    assert ([HEADER] + RowLines(rows))[0 := [BOM] + HEADER] == lines;
    OnlyTheTimeBreaks(rows[k]);
    RowLineBreaks(Fields(rows[k]));
    SumHasBreak(lines, k + 1);
    JoinBreaks(lines);
    LinesAreBreaksPlusOne(text);
    var last := rows[|rows| - 1];
    FieldCount(last);
    RowLineEnds(Fields(last));
    var end := [SEPARATOR] + Escape(Fields(last)[10]);
    RemarkEnds(last);
    JoinEnds(lines, end);
    LastLineNotBlank(text, end);
  }

  lemma RemarkEnds(r: RaceResult)
    ensures |Fields(r)| == 11 && OneLine([SEPARATOR] + Escape(Fields(r)[10]))
  {
    PlainFields(r);
    EscapeKeepsBreaks(Remark(r));
    assert Fields(r)[10] == Remark(r);
  }

  // ---- The round trip ----

  lemma SameTimes(p: seq<RaceResult>, q: seq<RaceResult>)
    requires multiset(p) == multiset(q)
    requires forall i :: 0 <= i < |p| ==> OneLine(p[i].finishTime)
    ensures forall i :: 0 <= i < |q| ==> OneLine(q[i].finishTime)
  {
    hide OneLine;
    forall i | 0 <= i < |q| ensures OneLine(q[i].finishTime) {
      assert q[i] in multiset(p);
    }
  }

  lemma RankingKeepsTimes(results: seq<RaceResult>)
    ensures |Recompute(results)| == |results|
    ensures forall i :: 0 <= i < |results| ==> Recompute(results)[i].finishTime == results[i].finishTime
  {
    hide RankLoop, SortForStandings;
  }

  /** Exporting neither invents nor loses a finish time. */
  lemma ExportedTimes(results: seq<RaceResult>)
    ensures (forall i :: 0 <= i < |Exported(results)| ==> OneLine(Exported(results)[i].finishTime)) <==>
            forall i :: 0 <= i < |results| ==> OneLine(results[i].finishTime)
  {
    hide OneLine, SortForStandings, Recompute;
    var ranked, rows := Recompute(results), Exported(results);
    RankingKeepsTimes(results);
    SortedForStandings(ranked, MakeDefault(0));
    if forall i :: 0 <= i < |ranked| ==> OneLine(ranked[i].finishTime) {
      SameTimes(ranked, rows);
    } else if forall i :: 0 <= i < |rows| ==> OneLine(rows[i].finishTime) {
      SameTimes(rows, ranked);
    }
  }

  /**
   * The export parses back to the header and one row per result, in standings order, exactly
   * when no finish time has a carriage return or line feed.
   */
  lemma ExportRoundTrip(results: seq<RaceResult>)
    ensures Parse(Build(results), SEPARATOR) == Expected(results) <==>
            forall i :: 0 <= i < |results| ==> OneLine(results[i].finishTime)
  {
    hide OneLine, Exported, LinesOf, Split, RowLines, Join;
    ExportedTimes(results);
    var rows := Exported(results);
    if forall i :: 0 <= i < |rows| ==> OneLine(rows[i].finishTime) {
      CleanExportIsReadBack(results);
    } else {
      var k :| 0 <= k < |rows| && !OneLine(rows[k].finishTime);
      BrokenLines(rows, k);
      assert |Parse(Build(results), SEPARATOR).rows| == |LinesOf(Build(results))| - 1 > |rows|;
    }
  }

  // ---- Columns and rows ----

  /** What a reader finds under a column's name, blank where the export leaves it blank. */
  function Named(r: RaceResult, name: string): string {
    match name
    case "bib" => IntToString(r.bib)
    case "rank" => if r.rank > 0 && !r.dns then IntToString(r.rank) else ""
    case "finish_time" => r.finishTime
    case "points" => IntToString(r.points)
    case "dnf" => (match r.dnf case NotDnf => "false" case PlainDnf => "dnf" case Elimination => "elimination")
    case "dnfLap" => IntToString(r.dnfLap)
    case "laps_completed" => IntToString(r.lapsCompleted)
    case "dns" => if r.dns then "true" else "false"
    case "dsq" => if r.dsq then "true" else "false"
    case "rank_at_finish" => if r.finishRank > 0 then IntToString(r.finishRank) else ""
    case "remark" => if r.dns then "DNS" else if r.dsq then "DSQ" else ""
    case _ => ""
  }

  /** Every column holds what its name in the header says. */
  lemma ColumnsMatchTheirNames(r: RaceResult, i: nat)
    requires i < 11
    ensures |Fields(r)| == |HEADER_NAMES| == 11
    ensures Fields(r)[i] == Named(r, HEADER_NAMES[i])
  {
    hide IntToString;
    var names := HEADER_NAMES;
    assert names[0][0] == 'b' && names[4][2] == 'f' && names[7][2] == 's' && names[8][1] == 's';
    assert names[3][0] == 'p' && names[5][0] == 'd' && names[10][0] == 'r' && names[6][0] == 'l' && names[9][0] == 'r';
    assert i == 0 || i == 1 || i == 2 || i == 3 || i == 4 || i == 5 || i == 6 || i == 7 || i == 8 || i == 9 || i == 10;
  }

  /** The rows of the export are the ranked results, each once, in standings order. */
  lemma ExportIsInStandingsOrder(results: seq<RaceResult>, i: nat, j: nat)
    requires i < j < |Exported(results)|
    ensures multiset(Exported(results)) == multiset(Recompute(results))
    ensures StandsBefore(Exported(results)[i], Exported(results)[j])
  {
    hide Recompute, SortForStandings;
    SortedForStandings(Recompute(results), MakeDefault(0));
    StandingsRead(Recompute(results), i, j);
  }
}
