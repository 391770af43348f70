/**
 Text that spells given rows is read as these rows: the reader on comma-separated values as
 section 2 of RFC 4180 describes them, with LF and CR as further line ends.
 */
module CsvText {
  import opened Options
  import opened CsvReader
  import opened CsvRecords
  import CsvTail

  function Doubled(field: string): string {
    if field == "" then ""
    else (if field[0] == '"' then "\"\"" else field[..1]) + Doubled(field[1..])
  }

  function Quoted(field: string): string {
    "\"" + Doubled(field) + "\""
  }

  /** What needs no quotes: no comma, no line end, and no quote at its start. */
  predicate Plain(field: string) {
    (forall i :: 0 <= i < |field| ==> field[i] != ',' && !IsNewline(field[i])) && (field != "" ==> field[0] != '"')
  }

  /** The first `n` characters are in quotes, and the rest, which needs none, follows them. */
  predicate QuotedUpTo(text: string, field: string, n: nat) {
    n <= |field| && text == Quoted(field[..n]) + field[n..] && Plain(field[n..])
  }

  predicate Spells(text: string, field: string) {
    (text == field && Plain(field)) || exists n: nat | n <= |field| :: QuotedUpTo(text, field, n)
  }

  /** A row, how its fields are spelled, and the line end behind them. */
  datatype Written = Written(row: CsvRow, cells: seq<string>, end: string)

  /** A row that is not empty, or an empty line. */
  predicate Proper(w: Written) {
    && |w.cells| == |w.row| && (forall i :: 0 <= i < |w.row| ==> Spells(w.cells[i], w.row[i]))
    && w.cells != [""] && IsLineEnd(w.end)
  }

  /** A CR and the LF of an empty line behind it would be one line end. */
  predicate EndsApart(lines: seq<Written>) {
    forall i :: 0 < i < |lines| ==> !JoinsCrLf(lines[i - 1].end, LineText(lines[i]))
  }

  function Joined(cells: seq<string>): string {
    if cells == [] then "" else if |cells| == 1 then cells[0] else cells[0] + "," + Joined(cells[1..])
  }

  function LineText(w: Written): string {
    Joined(w.cells) + w.end
  }

  function Text(lines: seq<Written>): string {
    if lines == [] then "" else LineText(lines[0]) + Text(lines[1..])
  }

  function RowsOf(lines: seq<Written>): seq<CsvRow> {
    if lines == [] then [] else [lines[0].row] + RowsOf(lines[1..])
  }

  /** A field has not begun yet. */
  predicate AtField(p: Parser) {
    p.field == "" && (p.mode.StartField? || p.mode.StartRecord?)
  }

  // -------------------------------------------------------------------- inside quotes

  /** Inside quotes every character counts, line ends included. */
  lemma {:induction false} InsideQuotes(p: Parser, c: char, s: string)
    requires p.mode.InQuotes? && c != '"'
    ensures FirstRecord(p, [c] + s) == Behind(1, FirstRecord(p.Add(c, InQuotes), s))
  {
    var t := [c] + s;
    assert t[1..] == s;
    if !IsNewline(c) {
      ReadOne(p, t);
    } else if c == '\r' && s != "" && s[0] == '\n' {
      assert t[..2] == "\r\n" && t[2..] == s[1..] && s[..1] == "\n";
      FeedCrLf(p);
      assert Line(p.Add('\r', InQuotes), "\n") == p.Add('\r', InQuotes).Add('\n', InQuotes);
    } else {
      assert t[..1] == [c];
      assert FeedAll(p, [c]) == Feed(p, c);
    }
  }

  lemma {:induction false} FeedCrLf(p: Parser)
    ensures FeedAll(p, "\r\n") == Feed(Feed(p, '\r'), '\n')
  {
    FeedAllConcat(p, "\r", "\n");
    assert "\r" + "\n" == "\r\n";
    assert FeedAll(p, "\r") == Feed(p, '\r');
    assert FeedAll(Feed(p, '\r'), "\n") == Feed(Feed(p, '\r'), '\n');
  }

  /** Two of them are one quote. */
  lemma {:induction false} TwoQuotes(p: Parser, s: string)
    requires p.mode.InQuotes?
    ensures FirstRecord(p, "\"\"" + s) == Behind(2, FirstRecord(p.Add('"', InQuotes), s))
  {
    hide FirstRecord;
    var t := "\"\"" + s;
    assert t[1..][1..] == s && t[1..][0] == '"';
    ReadOne(p, t);
    ReadOne(p.(mode := QuoteInQuotes), t[1..]);
  }

  lemma {:induction false} DoubledNothing()
    ensures Doubled("") == ""
  {
  }

  lemma {:induction false} DoubledOne(field: string, rest: string)
    requires field != ""
    ensures var one := if field[0] == '"' then "\"\"" else [field[0]];
      && Doubled(field) + rest == one + (Doubled(field[1..]) + rest)
      && |Doubled(field)| == |one| + |Doubled(field[1..])|
  {
    assert field[..1] == [field[0]];
  }

  lemma {:induction false} ReadDoubled(p: Parser, field: string, rest: string)
    requires p.mode.InQuotes?
    ensures FirstRecord(p, Doubled(field) + rest)
         == Behind(|Doubled(field)|, FirstRecord(Parser(InQuotes, p.field + field, p.fields), rest))
    decreases |field|
  {
    hide FirstRecord, Doubled, Feed;
    var after := Parser(InQuotes, p.field + field, p.fields);
    if field == "" {
      DoubledNothing();
      assert p.field + field == p.field && "" + rest == rest;
      NoneBehind(FirstRecord(p, rest));
    } else {
      var c, others := field[0], Doubled(field[1..]) + rest;
      ReadDoubled(p.Add(c, InQuotes), field[1..], rest);
      assert p.field + [c] + field[1..] == p.field + field;
      DoubledOne(field, rest);
      if c == '"' {
        TwoQuotes(p, others);
      } else {
        InsideQuotes(p, c, others);
      }
    }
  }

  lemma {:induction false} NoneBehind(r: Option<Record>)
    ensures Behind(0, r) == r
  {
  }

  lemma {:induction false} ReadPlain(p: Parser, field: string, rest: string)
    requires p.mode.InField? && forall i :: 0 <= i < |field| ==> field[i] != ',' && !IsNewline(field[i])
    ensures FirstRecord(p, field + rest) == Behind(|field|, FirstRecord(p.(field := p.field + field), rest))
    decreases |field|
  {
    hide FirstRecord;
    if field == "" {
      assert p.field + field == p.field && field + rest == rest;
      NoneBehind(FirstRecord(p, rest));
    } else {
      assert (field + rest)[1..] == field[1..] + rest;
      ReadOne(p, field + rest);
      ReadPlain(p.Add(field[0], InField), field[1..], rest);
      assert p.field + [field[0]] + field[1..] == p.field + field;
    }
  }

  // ----------------------------------------------------------------------- a whole row

  /** Quoted text, and what follows the closing quote. */
  lemma {:induction false} ReadQuoted(p: Parser, field: string, n: nat, text: string, rest: string) returns (q: Parser)
    requires AtField(p) && QuotedUpTo(text, field, n)
    ensures FirstRecord(p, text + rest) == Behind(|text|, FirstRecord(q, rest))
    ensures InRecord(q) && q.field == field && q.fields == p.fields
  {
    hide FirstRecord;
    var quoted, more := field[..n], field[n..];
    var t := text + rest;
    assert t[1..] == Doubled(quoted) + ("\"" + (more + rest));
    ReadOne(p, t);
    ReadDoubled(p.(mode := InQuotes), quoted, "\"" + (more + rest));
    assert "" + quoted == quoted;
    var inside := Parser(InQuotes, quoted, p.fields);
    assert ("\"" + (more + rest))[1..] == more + rest;
    ReadOne(inside, "\"" + (more + rest));
    q := inside.(mode := QuoteInQuotes);
    if more == "" {
      assert more + rest == rest && quoted == field;
    } else {
      assert (more + rest)[1..] == more[1..] + rest;
      ReadOne(q, more + rest);
      ReadPlain(q.Add(more[0], InField), more[1..], rest);
      assert quoted + [more[0]] + more[1..] == field;
      q := Parser(InField, field, p.fields);
    }
  }

  lemma {:induction false} ReadField(p: Parser, field: string, text: string, rest: string) returns (q: Parser)
    requires AtField(p) && Spells(text, field)
    ensures FirstRecord(p, text + rest) == Behind(|text|, FirstRecord(q, rest))
    ensures (InRecord(q) || (text == "" && q == p)) && q.field == field && q.fields == p.fields
  {
    hide FirstRecord, QuotedUpTo;
    if n: nat :| n <= |field| && QuotedUpTo(text, field, n) {
      q := ReadQuoted(p, field, n, text, rest);
    } else if text == "" {
      assert text + rest == rest;
      NoneBehind(FirstRecord(p, rest));
      q := p;
    } else {
      var t := text + rest;
      assert t[1..] == field[1..] + rest;
      ReadOne(p, t);
      ReadPlain(p.Add(field[0], InField), field[1..], rest);
      assert p.field + [field[0]] + field[1..] == field;
      q := Parser(InField, field, p.fields);
    }
  }

  lemma {:induction false} ReadRow(p: Parser, row: CsvRow, cells: seq<string>, end: string, rest: string)
    requires AtField(p) && |cells| == |row| > 0 && forall i :: 0 <= i < |row| ==> Spells(cells[i], row[i])
    requires p.mode.StartRecord? ==> cells != [""]
    requires IsLineEnd(end) && !JoinsCrLf(end, rest)
    ensures FirstRecord(p, Joined(cells) + end + rest) == Some(Record(p.fields + row, |Joined(cells)| + |end|))
    decreases |cells|
  {
    hide FirstRecord, Quoted, Spells;
    var field, text := row[0], cells[0];
    if |cells| == 1 {
      assert Joined(cells) + end + rest == text + (end + rest);
      var q := ReadField(p, field, text, end + rest);
      EndsRow(q, end, rest);
      assert row == [field];
    } else {
      var tail := Joined(cells[1..]) + end + rest;
      assert Joined(cells) + end + rest == text + ("," + tail);
      var q := ReadField(p, field, text, "," + tail);
      assert ("," + tail)[1..] == tail;
      ReadOne(q, "," + tail);
      ReadRow(q.Save(StartField), row[1..], cells[1..], end, rest);
      assert p.fields + [field] + row[1..] == p.fields + row;
    }
  }

  lemma {:induction false} EndsRow(q: Parser, end: string, rest: string)
    requires InRecord(q) && IsLineEnd(end) && !JoinsCrLf(end, rest)
    ensures FirstRecord(q, end + rest) == Some(Record(q.fields + [q.field], |end|))
  {
    LineEndCloses(q, end + rest);
  }

  /** An empty line is a row without fields. */
  lemma {:induction false} EmptyLine(end: string, rest: string)
    requires IsLineEnd(end) && !JoinsCrLf(end, rest)
    ensures FirstRecord(FRESH, end + rest) == Some(Record([], |end|))
  {
    assert (end + rest)[..|end|] == end && (end + rest)[|end|..] == rest;
    if end == "\r\n" {
      FeedCrLf(FRESH);
    } else {
      assert FeedAll(FRESH, end) == Feed(FRESH, end[0]);
    }
  }

  /**
   Main result.  Text that spells rows, with any line ends, is whole records and is read as
   exactly these rows: fields may hold anything, line ends, commas and quotes included.
   */
  lemma {:induction false} WhatIsWrittenIsRead(lines: seq<Written>)
    requires (forall w :: w in lines ==> Proper(w)) && EndsApart(lines)
    ensures Records(Text(lines)) == RowsOf(lines) && Consumed(Text(lines)) == |Text(lines)|
    ensures AllRows(Text(lines)) == RowsOf(lines)
  {
    ReadLines(lines);
    CsvTail.ReaderReadsRecords(Text(lines));
  }

  lemma {:induction false} ReadLines(lines: seq<Written>)
    requires (forall w :: w in lines ==> Proper(w)) && EndsApart(lines)
    ensures Records(Text(lines)) == RowsOf(lines) && Consumed(Text(lines)) == |Text(lines)|
  {
    hide FirstRecord, Joined, Spells, JoinsCrLf, IsLineEnd;
    if lines == [] {
      NothingToRead();
    } else {
      var w, rest := lines[0], Text(lines[1..]);
      assert w in lines && Proper(w);
      assert forall x :: x in lines[1..] ==> x in lines;
      assert EndsApart(lines[1..]) by {
        assert forall i :: 0 < i < |lines[1..]| ==> lines[1..][i] == lines[i + 1] && lines[1..][i - 1] == lines[i];
      }
      NotJoined(lines);
      ReadOneLine(w, rest);
      FirstThenRest(LineText(w), rest, w.row);
      ReadLines(lines[1..]);
    }
  }

  lemma {:induction false} ReadOneLine(w: Written, rest: string)
    requires Proper(w) && !JoinsCrLf(w.end, rest)
    ensures FirstRecord(FRESH, LineText(w) + rest) == Some(Record(w.row, |LineText(w)|))
  {
    hide FirstRecord, Spells, JoinsCrLf, IsLineEnd;
    if w.cells == [] {
      assert LineText(w) == w.end && w.row == [];
      EmptyLine(w.end, rest);
    } else {
      ReadRow(FRESH, w.row, w.cells, w.end, rest);
      assert [] + w.row == w.row;
    }
  }

  /** The line end of the first line is not joined with what follows. */
  lemma {:induction false} NotJoined(lines: seq<Written>)
    requires lines != [] && EndsApart(lines) && (forall w :: w in lines ==> Proper(w))
    ensures !JoinsCrLf(lines[0].end, Text(lines[1..]))
  {
    hide Joined, Spells;
    if |lines| > 1 {
      assert lines[1] in lines && Proper(lines[1]);
      assert Text(lines[1..]) == LineText(lines[1]) + Text(lines[1..][1..]);
      assert !JoinsCrLf(lines[0].end, LineText(lines[1]));
    }
  }

  lemma {:induction false} NothingToRead()
    ensures Records("") == [] && Consumed("") == 0
  {
  }
}
