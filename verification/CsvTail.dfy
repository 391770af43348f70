/**
 Cutting whole records out of a growing file: the functions of
 monitor_app/services/csv_tail.py, proved against `CsvRecords`.
 */
module CsvTail {
  import opened Options
  import opened CsvReader
  import opened CsvRecords

  /** The line put behind the text to see whether a quoted field is still open. */
  const SENTINEL: string := "\U{FFFF}\n"

  /** `_EOL.finditer`: where each line ends, counted from `base`. */
  function LineEnds(s: string, base: nat): (r: seq<nat>)
    ensures |r| == CountLines(s)
    decreases |s|
  {
    var n := LineEnd(s);
    if n.None? then [] else [base + n.value] + LineEnds(s[n.value..], base + n.value)
  }

  // ------------------------------------------------------------------ lines and records

  lemma {:induction false} FirstLineCounts(line: string, rest: string, base: nat)
    requires LineEnd(line + rest) == Some(|line|)
    ensures CountLines(line + rest) == 1 + CountLines(rest)
    ensures LineEnds(line + rest, base) == [base + |line|] + LineEnds(rest, base + |line|)
  {
    assert (line + rest)[|line|..] == rest;
  }

  lemma {:induction false} WholeLine(line: string)
    requires LineEnd(line) == Some(|line|)
    ensures CountLines(line) == 1
  {
    assert line[|line|..] == "";
  }

  lemma {:induction false} NoLines()
    ensures CountLines("") == 0
  {
  }

  /** The lines of `a` come before those of `b`, unless a CRLF lies across the border. */
  lemma {:induction false} LinesInParts(a: string, b: string)
    requires EndsLine(a) && !JoinsCrLf(a, b)
    ensures CountLines(a + b) == CountLines(a) + CountLines(b)
    decreases |a|
  {
    hide CountLines, LineEnds, LineEnd;
    NoLines();
    if a == "" {
      assert a + b == b;
    } else {
      var line, rest := CutLine(a, b);
      LineEndStable(a, b);
      assert a + b == line + (rest + b);
      FirstLineCounts(line, rest, 0);
      FirstLineCounts(line, rest + b, 0);
      LinesInParts(rest, b);
    }
  }

  lemma {:induction false} CutLine(a: string, b: string) returns (line: string, rest: string)
    requires a != "" && EndsLine(a)
    ensures a == line + rest && LineEnd(a) == Some(|line|) && line != "" && EndsLine(rest)
    ensures JoinsCrLf(rest, b) ==> JoinsCrLf(a, b)
  {
    LineEndFinds(a);
    line, rest := a[..LineEnd(a).value], a[LineEnd(a).value..];
  }

  lemma {:induction false} LinesBehindFirst(line: string, rest: string, b: string, base: nat)
    requires LineEnd(line + rest) == Some(|line|) && EndsLine(line + rest) && !JoinsCrLf(line + rest, b)
    ensures LineEnds(line + rest + b, base) == [base + |line|] + LineEnds(rest + b, base + |line|)
  {
    hide CountLines, LineEnds, LineEnd;
    LineEndStable(line + rest, b);
    Associative(line, rest, b);
    FirstLineCounts(line, rest + b, base);
  }

  /** The last line of `a` ends where `a` does. */
  lemma {:induction false} LastLineEnd(a: string, b: string, base: nat)
    requires EndsLine(a) && a != "" && !JoinsCrLf(a, b)
    ensures 0 < CountLines(a) <= |LineEnds(a + b, base)| && LineEnds(a + b, base)[CountLines(a) - 1] == base + |a|
    decreases |a|
  {
    hide CountLines, LineEnds, LineEnd, EndsLine, JoinsCrLf;
    NoLines();
    var line, rest := CutLine(a, b);
    FirstLineCounts(line, rest, base);
    LinesBehindFirst(line, rest, b, base);
    if rest != "" {
      LastLineEnd(rest, b, base + |line|);
    }
  }

  predicate AtLineEnd(s: string, n: nat) {
    && n <= |s|
    && (n == 0 || IsNewline(s[n - 1]))
    && !(0 < n < |s| && s[n - 1] == '\r' && s[n] == '\n')
  }

  /** The end of a record is the end of a line. */
  lemma {:induction false} RecordEndsAtLineEnd(p: Parser, s: string)
    requires Between(p) && FirstRecord(p, s).Some?
    ensures var n := FirstRecord(p, s).value.length; EndsLine(s[..n]) && !JoinsCrLf(s[..n], s[n..])
  {
    hide Feed, FeedAll, EndLine, Line, FirstRecord;
    RecordEndIsAtLineEnd(p, s);
  }

  lemma {:induction false} RecordEndIsAtLineEnd(p: Parser, s: string)
    requires Between(p) && FirstRecord(p, s).Some?
    ensures AtLineEnd(s, FirstRecord(p, s).value.length)
    decreases |s|
  {
    hide Feed, FeedAll, EndLine, Line, FirstRecord, LineEnd;
    var line, rest := SplitLine(p, s);
    LineEndTakesCrLf(s);
    if !Line(p, line).mode.StartRecord? {
      RecordEndIsAtLineEnd(Line(p, line), rest);
    }
  }

  lemma {:induction false} LineEndTakesCrLf(s: string)
    requires LineEnd(s).Some?
    ensures AtLineEnd(s, LineEnd(s).value)
  {
    if !IsNewline(s[0]) {
      LineEndTakesCrLf(s[1..]);
    }
  }

  // -------------------------------------------------------- the reader and the records

  /** The reader finds the first whole record, and counts the lines it read. */
  lemma {:induction false} ReaderFindsRecord(p: Parser, s: string, lines: nat)
    requires Between(p) && FirstRecord(p, s).Some?
    ensures var r := FirstRecord(p, s).value;
      ReadFrom(p, s, lines) == Got(r.row, s[r.length..], lines + CountLines(s[..r.length]))
    decreases |s|
  {
    hide Feed, FeedAll, EndLine, Line, FirstRecord, CountLines, LineEnds;
    var line, rest := SplitLine(p, s);
    assert s[..|line|] == line && s[|line|..] == rest;
    LineEndAlone(s);
    WholeLine(line);
    var q := Line(p, line);
    if !q.mode.StartRecord? {
      ReaderFindsRecord(q, rest, lines + 1);
      CountBehindLine(s, line, rest, FirstRecord(q, rest).value.length);
    }
  }

  lemma {:induction false} CountBehindLine(s: string, line: string, rest: string, k: nat)
    requires s == line + rest && LineEnd(s) == Some(|line|) && k <= |rest|
    ensures CountLines(s[..|line| + k]) == 1 + CountLines(rest[..k]) && s[|line| + k..] == rest[k..]
  {
    hide LineEnd, CountLines;
    assert s[..|line| + k] == line + rest[..k];
    LineEndCut(s, |line| + k);
    FirstLineCounts(line, rest[..k], 0);
  }

  lemma {:induction false} LineEndAlone(s: string)
    requires LineEnd(s).Some?
    ensures LineEnd(s[..LineEnd(s).value]) == LineEnd(s)
  {
    LineEndCut(s, LineEnd(s).value);
  }

  /** A last line: what is behind the last line end, and the sentinel. */
  predicate LastLine(end: string) {
    end != "" && end[0] != '\n' && LineEnd(end) == Some(|end|)
  }

  lemma {:induction false} SentinelEnds(tail: string)
    requires forall i :: 0 <= i < |tail| ==> !IsNewline(tail[i])
    ensures LastLine(tail + SENTINEL)
  {
    LineEndFinds(tail);
    LineEndSkips(tail, SENTINEL);
    assert SENTINEL[1..] == "\n";
  }

  /** Without a whole record left, the next row is the one that swallows the sentinel. */
  lemma {:induction false} ReaderMeetsSentinel(p: Parser, d: string, end: string, lines: nat)
    requires Between(p) && EndsLine(d) && FirstRecord(p, d).None? && LastLine(end)
    ensures ReadFrom(p, d + end, lines).Got?
    ensures ReadFrom(p, d + end, lines).lines == lines + CountLines(d) + 1
    decreases |d|
  {
    hide Feed, FeedAll, EndLine, Line;
    if d == "" {
      assert d + end == end;
      LineLeavesBetween(p, end);
      assert end[..|end|] == end && end[|end|..] == "";
    } else {
      LineEndFinds(d);
      var line, rest := SplitLine(p, d);
      LineEndStable(d, end);
      var whole := d + end;
      assert whole[..|line|] == line && whole[|line|..] == rest + end;
      FirstLineCounts(line, rest, 0);
      ReaderMeetsSentinel(Line(p, line), rest, end, lines + 1);
    }
  }

  /** Text without a line end adds no line. */
  lemma {:induction false} TailHasNoLine(a: string, u: string, base: nat)
    requires EndsLine(a) && forall i :: 0 <= i < |u| ==> !IsNewline(u[i])
    ensures LineEnds(a + u, base) == LineEnds(a, base)
    decreases |a|
  {
    hide LineEnds, LineEnd, CountLines;
    if a == "" {
      assert a + u == u;
      NoLineEnds(u, base);
      NoLineEnds("", base);
    } else {
      var line, rest := CutLine(a, u);
      assert line + rest + u == a + u;
      LinesBehindFirst(line, rest, u, base);
      FirstLineCounts(line, rest, base);
      TailHasNoLine(rest, u, base + |line|);
    }
  }

  lemma {:induction false} NoLineEnds(u: string, base: nat)
    requires forall i :: 0 <= i < |u| ==> !IsNewline(u[i])
    ensures LineEnds(u, base) == []
  {
    LineEndFinds(u);
  }

  // ---------------------------------------------------------------- text without quotes

  predicate Unquoted(p: Parser) {
    !p.mode.InQuotes? && !p.mode.QuoteInQuotes?
  }

  lemma {:induction false} NoQuoteStaysUnquoted(p: Parser, s: string)
    requires Unquoted(p) && '"' !in s
    ensures Unquoted(FeedAll(p, s))
    decreases |s|
  {
    if s != "" {
      assert s[0] in s;
      NoQuoteStaysUnquoted(Feed(p, s[0]), s[1..]);
    }
  }

  /** Without quotes every line is a record: the fast path agrees with the scan. */
  lemma {:induction false} FastPathAgrees(d: string)
    requires EndsLine(d) && '"' !in d
    ensures AllRows(d) == Records(d) && Consumed(d) == |d| && |Records(d)| == CountLines(d)
    decreases |d|
  {
    if d != "" {
      LineEndFinds(d);
      var line, rest := SplitLine(FRESH, d);
      OneLineIsOneRecord(d, line, rest);
      ReaderFindsRecord(FRESH, d, 0);
      FirstLineCounts(line, rest, 0);
      assert d[|line|..] == rest;
      FastPathAgrees(rest);
    }
  }

  lemma {:induction false} OneLineIsOneRecord(d: string, line: string, rest: string)
    requires d == line + rest && LineEnd(d) == Some(|line|) && '"' !in line
    ensures FirstRecord(FRESH, d) == Some(Record(Line(FRESH, line).fields, |line|))
  {
    NoQuoteStaysUnquoted(FRESH, line);
    LineLeavesBetween(FRESH, d);
    assert d[..|line|] == line;
    FirstLine(FRESH, line, rest);
  }

  /** On a text of whole records, the reader of the `csv` module yields exactly these records. */
  lemma {:induction false} ReaderReadsRecords(d: string)
    requires Consumed(d) == |d|
    ensures AllRows(d) == Records(d)
    decreases |d|
  {
    hide FirstRecord, LineEnd, Line, Feed, FeedAll, EndLine;
    if d != "" {
      var first, rest, row := SplitRecord(d);
      ReaderFindsRecord(FRESH, d, 0);
      assert d[|first|..] == rest;
      ReaderReadsRecords(rest);
    }
  }

  /**
   `Records` and `Consumed` without their automaton: the rows the reader yields for the
   longest prefix of whole records, read once.
   */
  lemma {:induction false} LongestPrefixReadOnce(s: string, n: nat)
    ensures AllRows(s[..Consumed(s)]) == Records(s)
    ensures n <= |s| && Consumed(s[..n]) == n ==> n <= Consumed(s)
  {
    hide Records, Consumed;
    PrefixIsWhole(s);
    ReaderReadsRecords(s[..Consumed(s)]);
    if n <= |s| {
      assert s == s[..n] + s[n..];
      ReadingInParts(s[..n], s[n..]);
    }
  }

  // --------------------------------------------------------------------- the functions

  /** Position behind the last CR or LF: `max(rfind(LF), rfind(CR)) + 1`. */
  function Cut(data: string): (n: nat)
    ensures n <= |data|
  {
    if data == "" then 0
    else if IsNewline(data[|data| - 1]) then |data|
    else Cut(data[..|data| - 1])
  }

  lemma {:induction false} CutIsLast(data: string)
    ensures EndsLine(data[..Cut(data)])
    ensures forall i :: Cut(data) <= i < |data| ==> !IsNewline(data[i])
  {
    if data != "" && !IsNewline(data[|data| - 1]) {
      CutIsLast(data[..|data| - 1]);
      assert data[..|data| - 1][..Cut(data)] == data[..Cut(data)];
    }
  }

  /** Cutting off the bytes behind the last line end loses no record. */
  lemma {:induction false} CutKeepsRecords(data: string)
    ensures Records(data[..Cut(data)]) == Records(data) && Consumed(data[..Cut(data)]) == Consumed(data)
  {
    hide Records, Consumed, Cut, EndsLine;
    CutIsLast(data);
    var tail := data[Cut(data)..];
    assert data == data[..Cut(data)] + tail;
    assert forall i :: 0 <= i < |tail| ==> tail[i] == data[Cut(data) + i];
    CutAtLastLineEnd(data[..Cut(data)], tail);
  }

  /** How far the scan has come: `read` is done, `left` is to be read. */
  ghost predicate Scanned(data: string, read: string, left: string, rows: seq<CsvRow>, lineNum: nat) {
    && data == read + left && EndsLine(read) && EndsLine(left) && !JoinsCrLf(read, left)
    && lineNum == CountLines(read)
    && rows + Records(left) == Records(data) && |read| + Consumed(left) == Consumed(data)
  }

  /** `_scan_complete`: read rows until the sentinel shows up.  The text may end within a line. */
  method ScanComplete(data: string) returns (rows: seq<CsvRow>, consumed: nat)
    ensures rows == Records(data) && consumed == Consumed(data)
  {
    hide Records, Consumed, CountLines, LineEnds, NextRow;
    var ends := LineEnds(data, 0);
    var lines := |ends|;
    var rest := data + SENTINEL;
    var lineNum: nat, done: nat := 0, 0;
    rows := [];
    ghost var whole, end := WholeLines(data);
    ghost var read, left := "", whole;
    assert whole == read + left;
    while true
      invariant Scanned(whole, read, left, rows, lineNum) && done == lineNum
      invariant rest == left + end
      decreases |rest|
    {
      var r := NextRow(rest, lineNum);
      ghost var step := ScanStep(whole, read, left, end, rows, lineNum);
      if r.End? {
        break;
      }
      lineNum := r.lines;
      if lineNum > lines {
        break;
      }
      rows := rows + [r.row];
      done := lineNum;
      rest := r.rest;
      read, left := read + left[..step], left[step..];
    }
    ScanEnds(whole, read, left, rows, done);
    consumed := if done > 0 then ends[done - 1] else 0;
  }

  /** The whole lines of a text, and the line the sentinel makes of what is behind them. */
  lemma {:induction false} WholeLines(data: string) returns (whole: string, end: string)
    ensures EndsLine(whole) && LastLine(end) && whole + end == data + SENTINEL
    ensures Records(whole) == Records(data) && Consumed(whole) == Consumed(data)
    ensures LineEnds(whole, 0) == LineEnds(data, 0)
    ensures CountLines("") == 0
  {
    hide Records, Consumed, LineEnds;
    whole := data[..Cut(data)];
    var tail := data[Cut(data)..];
    CutIsLast(data);
    CutKeepsRecords(data);
    SentinelEnds(tail);
    TailHasNoLine(whole, tail, 0);
    end := tail + SENTINEL;
    assert whole + tail == data;
  }

  lemma {:induction false} ScanEnds(data: string, read: string, left: string, rows: seq<CsvRow>, done: nat)
    requires Scanned(data, read, left, rows, done)
    ensures done <= CountLines(data)
    ensures |read| == if done > 0 then LineEnds(data, 0)[done - 1] else 0
  {
    LinesInParts(read, left);
    if read == "" {
      assert CountLines(read) == 0;
    } else {
      LastLineEnd(read, left, 0);
    }
  }

  /** One round of the scan: a whole record, or the sentinel and nothing whole left. */
  lemma {:induction false} ScanStep(data: string, read: string, left: string, end: string, rows: seq<CsvRow>,
                                    lineNum: nat)
    returns (n: nat)
    requires Scanned(data, read, left, rows, lineNum) && LastLine(end)
    ensures n <= |left| && NextRow(left + end, lineNum).Got?
    ensures var r := NextRow(left + end, lineNum);
      && (n == 0 ==> r.lines > CountLines(data) && Records(left) == [] && Consumed(left) == 0)
      && (n > 0 ==>
            && r.rest == left[n..] + end && r.lines <= CountLines(data)
            && Scanned(data, read + left[..n], left[n..], rows + [r.row], r.lines))
  {
    LinesInParts(read, left);
    if FirstRecord(FRESH, left).None? {
      n := 0;
      ReaderMeetsSentinel(FRESH, left, end, lineNum);
    } else {
      n := FirstRecord(FRESH, left).value.length;
      ScanFinds(data, read, left, end, rows, lineNum, n);
    }
  }

  lemma {:induction false} ScanFinds(data: string, read: string, left: string, end: string, rows: seq<CsvRow>,
                                     lineNum: nat, n: nat)
    requires Scanned(data, read, left, rows, lineNum) && LastLine(end)
    requires FirstRecord(FRESH, left).Some? && n == FirstRecord(FRESH, left).value.length
    ensures var r := NextRow(left + end, lineNum);
      && r.Got? && r.rest == left[n..] + end && r.lines <= CountLines(data)
      && Scanned(data, read + left[..n], left[n..], rows + [r.row], r.lines)
  {
    hide FirstRecord, Feed, FeedAll, EndLine, Line, LineEnd, ReadFrom, Records, Consumed, CountLines, LineEnds;
    var first, rest, row := SplitRecord(left);
    assert left[..n] == first && left[n..] == rest;
    RecordEndsAtLineEnd(FRESH, left);
    FirstRecordStable(FRESH, left, end);
    ReaderFindsRecord(FRESH, left + end, lineNum);
    assert (left + end)[n..] == rest + end && (left + end)[..n] == first;
    ScannedFurther(data, read, first, rest, rows, row);
  }

  /** What lies on the borders of three parts. */
  lemma {:induction false} BorderOf(a: string, b: string, c: string)
    requires b != ""
    ensures EndsLine(a + b) == EndsLine(b) && EndsLine(b + c) == (if c == "" then EndsLine(b) else EndsLine(c))
    ensures JoinsCrLf(a + b, c) == JoinsCrLf(b, c) && JoinsCrLf(a, b + c) == JoinsCrLf(a, b)
  {
  }

  lemma {:induction false} ScannedFurther(data: string, read: string, first: string, rest: string, rows: seq<CsvRow>,
                                          row: CsvRow)
    requires Scanned(data, read, first + rest, rows, CountLines(read))
    requires first != "" && EndsLine(first) && EndsLine(rest) && !JoinsCrLf(first, rest)
    requires Records(first + rest) == [row] + Records(rest) && Consumed(first + rest) == |first| + Consumed(rest)
    ensures Scanned(data, read + first, rest, rows + [row], CountLines(read) + CountLines(first))
    ensures CountLines(read) + CountLines(first) <= CountLines(data)
  {
    hide Records, Consumed, CountLines, EndsLine, JoinsCrLf;
    BorderOf(read, first, rest);
    LinesInParts(read, first);
    LinesInParts(read + first, rest);
    Associative(read, first, rest);
    Associative(rows, [row], Records(rest));
  }

  /** `_parse_complete`.  Without a quote, text behind the last line end makes a row of its own. */
  method ParseComplete(data: string) returns (rows: seq<CsvRow>, consumed: nat)
    ensures EndsLine(data) || '"' in data ==> rows == Records(data) && consumed == Consumed(data)
    ensures '"' !in data ==> rows == AllRows(data) && consumed == |data|
  {
    if '"' !in data {
      if EndsLine(data) {
        FastPathAgrees(data);
      }
      return AllRows(data), |data|;
    }
    rows, consumed := ScanComplete(data);
  }

  /** `_count_lines`: occurrences of LF and CR, less those of CRLF. */
  function Occurrences(s: string, c: char): nat {
    if s == "" then 0 else (if s[0] == c then 1 else 0) + Occurrences(s[1..], c)
  }

  function CrLfs(s: string): nat {
    if |s| < 2 then 0 else (if s[0] == '\r' && s[1] == '\n' then 1 else 0) + CrLfs(s[1..])
  }

  lemma {:induction false} CountingBytes(s: string)
    ensures CountLines(s) == Occurrences(s, '\n') + Occurrences(s, '\r') - CrLfs(s)
    decreases |s|
  {
    if s != "" {
      if s[0] == '\r' && |s| > 1 && s[1] == '\n' {
        assert s[1..][1..] == s[2..];
        CountingBytes(s[2..]);
      } else if IsNewline(s[0]) {
        CountingBytes(s[1..]);
      } else {
        CountingBytes(s[1..]);
        if LineEnd(s).Some? {
          assert s[1..][LineEnd(s[1..]).value..] == s[LineEnd(s).value..];
        }
      }
    }
  }

  /** `_complete_prefix`: how much of `data` is whole records, and how many there are. */
  method CompletePrefix(data: string) returns (consumed: nat, count: nat)
    ensures consumed == Consumed(data) && count == |Records(data)|
  {
    var cut := Cut(data);
    CutKeepsRecords(data);
    CutIsLast(data);
    var text := data[..cut];
    if cut == 0 {
      assert text == "";
      return 0, 0;
    }
    if '"' !in text {
      FastPathAgrees(text);
      CountingBytes(text);
      return cut, Occurrences(text, '\n') + Occurrences(text, '\r') - CrLfs(text);
    }
    var rows, n := ScanComplete(text);
    return n, |rows|;
  }

  /** `_first_record_end`: where the header ends, if it is whole. */
  method FirstRecordEnd(data: string) returns (end: nat)
    ensures end <= |data|
    ensures FirstRecord(FRESH, data).Some? ==> end == FirstRecord(FRESH, data).value.length
    ensures if LineEnd(data).None? then end == |data| else EndsLine(data[..end])
    ensures FirstRecord(FRESH, data).None? && LineEnd(data).Some? ==> '"' in data[..end]
  {
    hide FirstRecord, LineEnd, LineEnds, NextRow, CountLines, Line;
    var first := LineEnd(data);
    if first.None? {
      NoRecordWithoutLineEnd(data);
      return |data|;
    }
    if '"' !in data[..first.value] {
      assert data == data[..first.value] + data[first.value..];
      OneLineIsOneRecord(data, data[..first.value], data[first.value..]);
      LineEndFinds(data);
      return first.value;
    }
    end := QuotedRecordEnd(data);
  }

  lemma {:induction false} NoRecordWithoutLineEnd(block: string)
    requires LineEnd(block).None?
    ensures FirstRecord(FRESH, block).None?
  {
  }

  /** The same for a first line with a quote: read one row and go on by as many lines. */
  method QuotedRecordEnd(data: string) returns (end: nat)
    requires LineEnd(data).Some? && '"' in data[..LineEnd(data).value]
    ensures end <= |data| && EndsLine(data[..end]) && '"' in data[..end]
    ensures FirstRecord(FRESH, data).Some? ==> end == FirstRecord(FRESH, data).value.length
  {
    hide FirstRecord, LineEnd, LineEnds, NextRow, CountLines, Line;
    var first := LineEnd(data);
    var ends := LineEnds(data, 0);
    var r := NextRow(data, 0);
    RowOfText(data);
    SomeLineEnd(data);
    var k := if r.lines <= |ends| then r.lines else |ends|;
    LineEndAt(data, 0, k - 1);
    if FirstRecord(FRESH, data).Some? {
      FirstRecordIsAtLine(data);
    }
    return ends[k - 1];
  }

  lemma {:induction false} SomeLineEnd(data: string)
    ensures LineEnd(data).Some? ==> |LineEnds(data, 0)| > 0
  {
  }

  lemma {:induction false} RowOfText(data: string)
    ensures data != "" ==> NextRow(data, 0).Got?
  {
    if data != "" {
      TextGivesARow(FRESH, data, 0);
    }
  }

  /** The line the reader stands at behind the first record is where that record ends. */
  lemma {:induction false} FirstRecordIsAtLine(data: string)
    requires FirstRecord(FRESH, data).Some?
    ensures var r := NextRow(data, 0);
      && r.Got? && r.lines <= |LineEnds(data, 0)|
      && LineEnds(data, 0)[r.lines - 1] == FirstRecord(FRESH, data).value.length
  {
    hide FirstRecord, LineEnd, LineEnds, CountLines, EndsLine, JoinsCrLf, ReadFrom;
    var n := FirstRecord(FRESH, data).value.length;
    ReaderFindsRecord(FRESH, data, 0);
    RecordEndsAtLineEnd(FRESH, data);
    assert data == data[..n] + data[n..];
    LinesInParts(data[..n], data[n..]);
    LastLineEnd(data[..n], data[n..], 0);
  }

  /** A text that is not empty always gives a row. */
  lemma {:induction false} TextGivesARow(p: Parser, s: string, lines: nat)
    requires Between(p) && (s != "" || p.mode.InQuotes?)
    ensures ReadFrom(p, s, lines).Got?
    decreases |s|
  {
    hide Feed, FeedAll, EndLine, Line;
    if s != "" {
      var n := if LineEnd(s).Some? then LineEnd(s).value else |s|;
      LineLeavesBetween(p, s);
      assert s[..|s|] == s;
      if !Line(p, s[..n]).mode.StartRecord? {
        TextGivesARow(Line(p, s[..n]), s[n..], lines + 1);
      }
    }
  }

  /** A line end that is found lies behind a newline character. */
  lemma {:induction false} LineEndAt(s: string, base: nat, i: nat)
    requires i < |LineEnds(s, base)|
    ensures LineEnd(s).Some? && base + LineEnd(s).value <= LineEnds(s, base)[i] <= base + |s|
    ensures IsNewline(s[LineEnds(s, base)[i] - base - 1])
    decreases |s|
  {
    hide LineEnd;
    LineEndFinds(s);
    var n := LineEnd(s).value;
    if i > 0 {
      var x := LineEnds(s, base)[i];
      LineEndAt(s[n..], base + n, i - 1);
      assert s[n..][x - (base + n) - 1] == s[x - base - 1];
    }
  }
}
