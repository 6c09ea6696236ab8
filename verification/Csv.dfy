/**
 * Semicolon separated text: escaping a field, and the line splitter with its quote state.
 * Quoting follows section 2 of RFC 4180, rules 6 and 7, with `;` as the separator.
 */
module Csv {
  const SEPARATOR := ';'
  const QUOTE := '\"'
  const CR := '\r'
  const LF := '\n'

  // ---- Writing ----

  predicate Special(c: char) {
    c == QUOTE || c == SEPARATOR || c == LF || c == CR
  }

  predicate NeedsQuotes(s: string) {
    exists c :: c in s && Special(c)
  }

  function DoubleQuotes(s: string): string
    decreases |s|
  {
    if s == "" then "" else (if s[0] == QUOTE then [QUOTE, QUOTE] else [s[0]]) + DoubleQuotes(s[1..])
  }

  function Escape(s: string): string {
    if NeedsQuotes(s) then [QUOTE] + DoubleQuotes(s) + [QUOTE] else s
  }

  function Join(parts: seq<string>, separator: string): string
    decreases |parts|
  {
    if parts == [] then ""
    else if |parts| == 1 then parts[0]
    else parts[0] + separator + Join(parts[1..], separator)
  }

  function EscapeAll(row: seq<string>): seq<string> {
    seq(|row|, i requires 0 <= i < |row| => Escape(row[i]))
  }

  function RowLine(row: seq<string>): string {
    Join(EscapeAll(row), [SEPARATOR])
  }

  // ---- Reading ----

  datatype Scan = Scan(out: seq<string>, cur: string, inQuotes: bool)

  function SplitRest(line: string, delimiter: char, st: Scan): seq<string>
    decreases |line|
  {
    if line == "" then st.out + [st.cur]
    else if st.inQuotes then
      if line[0] == QUOTE then
        if |line| > 1 && line[1] == QUOTE then SplitRest(line[2..], delimiter, st.(cur := st.cur + [QUOTE]))
        else SplitRest(line[1..], delimiter, st.(inQuotes := false))
      else SplitRest(line[1..], delimiter, st.(cur := st.cur + [line[0]]))
    else if line[0] == QUOTE then SplitRest(line[1..], delimiter, st.(inQuotes := true))
    else if line[0] == delimiter then SplitRest(line[1..], delimiter, Scan(st.out + [st.cur], "", false))
    else SplitRest(line[1..], delimiter, st.(cur := st.cur + [line[0]]))
  }

  function Split(line: string, delimiter: char): seq<string> {
    SplitRest(line, delimiter, Scan([], "", false))
  }

  method SplitCsvLine(line: string, delimiter: char) returns (fields: seq<string>)
    ensures fields == Split(line, delimiter)
  {
    var out: seq<string>, cur, inQuotes := [], "", false;
    var i := 0;
    while i < |line|
      invariant i <= |line|
      invariant SplitRest(line[i..], delimiter, Scan(out, cur, inQuotes)) == Split(line, delimiter)
    {
      var ch := line[i];
      assert line[i..][0] == ch && line[i..][1..] == line[i + 1..];
      if inQuotes {
        if ch == QUOTE {
          if i + 1 < |line| && line[i + 1] == QUOTE {
            assert line[i..][2..] == line[i + 2..];
            cur := cur + [QUOTE];
            i := i + 1;
          } else {
            inQuotes := false;
          }
        } else {
          cur := cur + [ch];
        }
      } else if ch == QUOTE {
        inQuotes := true;
      } else if ch == delimiter {
        out := out + [cur];
        cur := "";
      } else {
        cur := cur + [ch];
      }
      i := i + 1;
    }
    fields := out + [cur];
  }

  // ---- Round trip ----

  /** A field as it may be written: in quotes, or as it is. */
  function Written(s: string, quoted: bool): string {
    if quoted then [QUOTE] + DoubleQuotes(s) + [QUOTE] else s
  }

  /** What is written without quotes must not need them. */
  predicate Readable(s: string, quoted: bool, delimiter: char) {
    quoted || (QUOTE !in s && delimiter !in s)
  }

  predicate EndsField(rest: string, delimiter: char) {
    rest == "" || rest[0] == delimiter
  }

  lemma {:induction false} ReadQuoted(s: string, rest: string, delimiter: char, out: seq<string>, cur: string)
    requires delimiter != QUOTE && EndsField(rest, delimiter)
    ensures SplitRest(DoubleQuotes(s) + [QUOTE] + rest, delimiter, Scan(out, cur, true)) ==
            SplitRest(rest, delimiter, Scan(out, cur + s, false))
    decreases |s|
  {
    var line := DoubleQuotes(s) + [QUOTE] + rest;
    if s == "" {
      assert line[1..] == rest && cur + s == cur;
    } else {
      ReadQuoted(s[1..], rest, delimiter, out, cur + [s[0]]);
      assert cur + [s[0]] + s[1..] == cur + s;
      var tail := DoubleQuotes(s[1..]) + [QUOTE] + rest;
      if s[0] == QUOTE {
        assert line[2..] == tail && line[0] == QUOTE && line[1] == QUOTE;
      } else {
        assert line[1..] == tail && line[0] == s[0];
      }
    }
  }

  lemma {:induction false} ReadPlain(s: string, rest: string, delimiter: char, out: seq<string>, cur: string)
    requires QUOTE !in s && delimiter !in s
    ensures SplitRest(s + rest, delimiter, Scan(out, cur, false)) == SplitRest(rest, delimiter, Scan(out, cur + s, false))
    decreases |s|
  {
    if s == "" {
      assert s + rest == rest && cur + s == cur;
    } else {
      assert s[0] in s;
      assert forall c :: c in s[1..] ==> c in s;
      ReadPlain(s[1..], rest, delimiter, out, cur + [s[0]]);
      assert (s + rest)[1..] == s[1..] + rest && cur + [s[0]] + s[1..] == cur + s;
    }
  }

  lemma OpenQuote(tail: string, delimiter: char, out: seq<string>)
    ensures SplitRest([QUOTE] + tail, delimiter, Scan(out, "", false)) == SplitRest(tail, delimiter, Scan(out, "", true))
  {
    assert ([QUOTE] + tail)[1..] == tail;
  }

  lemma ReadField(s: string, quoted: bool, rest: string, delimiter: char, out: seq<string>)
    requires delimiter != QUOTE && EndsField(rest, delimiter) && Readable(s, quoted, delimiter)
    ensures SplitRest(Written(s, quoted) + rest, delimiter, Scan(out, "", false)) == SplitRest(rest, delimiter, Scan(out, s, false))
  {
    hide DoubleQuotes, SplitRest;
    assert "" + s == s;
    if quoted {
      assert Written(s, quoted) + rest == [QUOTE] + (DoubleQuotes(s) + [QUOTE] + rest);
      OpenQuote(DoubleQuotes(s) + [QUOTE] + rest, delimiter, out);
      ReadQuoted(s, rest, delimiter, out, "");
    } else {
      ReadPlain(s, rest, delimiter, out, "");
    }
  }

  function WriteAll(row: seq<string>, quoted: seq<bool>): seq<string>
    requires |row| == |quoted|
  {
    seq(|row|, i requires 0 <= i < |row| => Written(row[i], quoted[i]))
  }

  lemma {:induction false} ReadRow(row: seq<string>, quoted: seq<bool>, delimiter: char, out: seq<string>)
    requires row != [] && |row| == |quoted| && delimiter != QUOTE
    requires forall i :: 0 <= i < |row| ==> Readable(row[i], quoted[i], delimiter)
    ensures SplitRest(Join(WriteAll(row, quoted), [delimiter]), delimiter, Scan(out, "", false)) == out + row
    decreases |row|
  {
    hide Written, Readable;
    var written := WriteAll(row, quoted);
    if |row| == 1 {
      assert written[0] == written[0] + "";
      ReadField(row[0], quoted[0], "", delimiter, out);
      assert row == [row[0]];
    } else {
      var rest := [delimiter] + Join(written[1..], [delimiter]);
      assert written[1..] == WriteAll(row[1..], quoted[1..]);
      assert Join(written, [delimiter]) == written[0] + rest;
      ReadField(row[0], quoted[0], rest, delimiter, out);
      assert rest[1..] == Join(written[1..], [delimiter]);
      ReadRow(row[1..], quoted[1..], delimiter, out + [row[0]]);
      assert out + [row[0]] + row[1..] == out + row;
    }
  }

  /**
   * Any fields, each written in quotes or, if it has neither a quote nor the delimiter, as it is,
   * are read back, whatever the delimiter is.
   */
  lemma SplitOfWritten(row: seq<string>, quoted: seq<bool>, delimiter: char)
    requires row != [] && |row| == |quoted| && delimiter != QUOTE
    requires forall i :: 0 <= i < |row| ==> Readable(row[i], quoted[i], delimiter)
    ensures Split(Join(WriteAll(row, quoted), [delimiter]), delimiter) == row
  {
    hide Written, Readable, SplitRest;
    ReadRow(row, quoted, delimiter, []);
    assert [] + row == row;
  }

  lemma EscapedIsReadable(s: string)
    ensures Escape(s) == Written(s, NeedsQuotes(s)) && Readable(s, NeedsQuotes(s), SEPARATOR)
  {
    assert QUOTE in s || SEPARATOR in s ==> NeedsQuotes(s) by {
      assert Special(QUOTE) && Special(SEPARATOR);
    }
  }

  /** Splitting the joined escapes of any row gives the row back, unless the row has no fields. */
  lemma SplitOfJoin(row: seq<string>)
    ensures Split(RowLine(row), SEPARATOR) == row <==> row != []
  {
    if row != [] {
      hide Written, Readable, SplitRest, NeedsQuotes, Escape;
      var quoted := seq(|row|, i requires 0 <= i < |row| => NeedsQuotes(row[i]));
      forall i | 0 <= i < |row| ensures Escape(row[i]) == Written(row[i], quoted[i]) && Readable(row[i], quoted[i], SEPARATOR) {
        EscapedIsReadable(row[i]);
      }
      assert EscapeAll(row) == WriteAll(row, quoted);
      SplitOfWritten(row, quoted, SEPARATOR);
    }
  }
}
