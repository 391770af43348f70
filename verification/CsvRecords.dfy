/**
 The longest prefix of a text that consists of whole CSV records, and how it grows.

 This is the reference for monitor_app/services/csv_tail.py: `Records` are the complete
 rows and `Consumed` is where they end.  A record is whole once the line end that closes
 it is there; a quoted field that is still open holds its record back.
 */
module CsvRecords {
  import opened Options
  import opened CsvReader

  datatype Record = Record(row: CsvRow, length: nat)

  /** The first whole record of `s`, for an automaton that has read part of it already. */
  function FirstRecord(p: Parser, s: string): (r: Option<Record>)
    ensures r.Some? ==> 1 <= r.value.length <= |s|
    decreases |s|
  {
    var n := LineEnd(s);
    if n.None? then None
    else
      var q := Line(p, s[..n.value]);
      if q.mode.StartRecord? then Some(Record(q.fields, n.value))
      else
        Behind(n.value, FirstRecord(q, s[n.value..]))
  }

  /** The same record, found `n` characters further on. */
  function Behind(n: nat, r: Option<Record>): Option<Record> {
    if r.None? then None else Some(Record(r.value.row, n + r.value.length))
  }

  function Records(s: string): seq<CsvRow>
    decreases |s|
  {
    var r := FirstRecord(FRESH, s);
    if r.None? then [] else [r.value.row] + Records(s[r.value.length..])
  }

  function Consumed(s: string): (n: nat)
    ensures n <= |s|
    decreases |s|
  {
    var r := FirstRecord(FRESH, s);
    if r.None? then 0 else r.value.length + Consumed(s[r.value.length..])
  }

  /** The importer skips empty lines and does not count them. */
  function NonEmpty(rows: seq<CsvRow>): seq<CsvRow> {
    if rows == [] then []
    else (if rows[0] == [] then [] else [rows[0]]) + NonEmpty(rows[1..])
  }

  /** The rows to import from a file: everything after the header, without empty lines. */
  function DataRows(rows: seq<CsvRow>): seq<CsvRow> {
    if rows == [] then [] else NonEmpty(rows[1..])
  }

  /** `text` is empty or ends with a line end. */
  predicate EndsLine(text: string) {
    text == "" || IsNewline(text[|text| - 1])
  }

  // --------------------------------------------------------------- growing a text

  /** The line end at the end of `s` and the start of `t` are one CRLF. */
  predicate JoinsCrLf(s: string, t: string) {
    s != "" && s[|s| - 1] == '\r' && t != "" && t[0] == '\n'
  }

  lemma {:induction false} NonEmptyConcat(a: seq<CsvRow>, b: seq<CsvRow>)
    ensures NonEmpty(a + b) == NonEmpty(a) + NonEmpty(b)
  {
    if a == [] {
      assert a + b == b;
    } else {
      assert (a + b)[1..] == a[1..] + b;
      NonEmptyConcat(a[1..], b);
    }
  }

  /** `FirstRecord` on a text given as its first line and what follows. */
  lemma {:induction false} FirstLine(p: Parser, line: string, rest: string)
    requires LineEnd(line + rest) == Some(|line|)
    ensures FirstRecord(p, line + rest) ==
      if Line(p, line).mode.StartRecord? then Some(Record(Line(p, line).fields, |line|))
      else Behind(|line|, FirstRecord(Line(p, line), rest))
  {
    hide Feed, FeedAll, EndLine, Line;
    assert (line + rest)[..|line|] == line && (line + rest)[|line|..] == rest;
  }

  /** Cut `s` behind its first line. */
  lemma {:induction false} SplitLine(p: Parser, s: string) returns (line: string, rest: string)
    requires Between(p) && (LineEnd(s).Some? || FirstRecord(p, s).Some?)
    ensures s == line + rest && LineEnd(s) == Some(|line|) && |rest| < |s| && EndsLine(line)
    ensures FirstRecord(p, s) ==
      if Line(p, line).mode.StartRecord? then Some(Record(Line(p, line).fields, |line|))
      else Behind(|line|, FirstRecord(Line(p, line), rest))
    ensures Between(Line(p, line))
  {
    line, rest := s[..LineEnd(s).value], s[LineEnd(s).value..];
    LineLeavesBetween(p, s);
    LineEndFinds(s);
    assert s == line + rest;
    FirstLine(p, line, rest);
  }

  /** Text behind the last whole record does not change the first one. */
  lemma {:induction false} FirstRecordStable(p: Parser, s: string, t: string)
    requires Between(p) && FirstRecord(p, s).Some?
    requires FirstRecord(p, s).value.length < |s| || !JoinsCrLf(s, t)
    ensures FirstRecord(p, s + t) == FirstRecord(p, s)
    decreases |s|
  {
    hide Feed, FeedAll, EndLine, Line;
    var line, rest := SplitLine(p, s);
    LineEndStable(s, t);
    assert s + t == line + (rest + t);
    FirstLine(p, line, rest + t);
    var q := Line(p, line);
    if !q.mode.StartRecord? {
      FirstRecordStable(q, rest, t);
    }
  }

  /** A second half of CRLF belongs to the record the CR has already closed. */
  lemma {:induction false} FirstRecordJoins(p: Parser, s: string, t: string)
    requires Between(p) && FirstRecord(p, s).Some? && FirstRecord(p, s).value.length == |s| && JoinsCrLf(s, t)
    ensures FirstRecord(p, s + t) == Some(Record(FirstRecord(p, s).value.row, |s| + 1))
    decreases |s|
  {
    hide Feed, FeedAll, EndLine, Line, FirstRecord;
    var line, rest := SplitLine(p, s);
    var q := Line(p, line);
    if q.mode.StartRecord? {
      assert rest == "" && line == s;
      LineEndJoinsCrLf(s, t);
      assert s + t == (s + "\n") + t[1..];
      FirstLine(p, s + "\n", t[1..]);
      LineWithLf(p, s);
    } else {
      LineEndStable(s, t);
      assert s + t == line + (rest + t);
      FirstLine(p, line, rest + t);
      FirstRecordJoins(q, rest, t);
    }
  }

  lemma {:induction false} LineWithLf(p: Parser, s: string)
    requires Between(p) && LineEnd(s) == Some(|s|) && s[|s| - 1] == '\r' && Line(p, s).mode.StartRecord?
    ensures Line(p, s + "\n") == Line(p, s)
  {
    FeedAllConcat(p, s, "\n");
    ClosedByCr(p, s);
    assert FeedAll(FeedAll(p, s), "\n") == Feed(FeedAll(p, s), '\n');
  }

  /** A CR that ends a record leaves the automaton waiting for the rest of the line end. */
  lemma {:induction false} ClosedByCr(p: Parser, s: string)
    requires Between(p) && LineEnd(s) == Some(|s|) && s[|s| - 1] == '\r' && Line(p, s).mode.StartRecord?
    ensures FeedAll(p, s).mode == EatNewline
  {
    LineEndIsFirst(s);
    var body := s[..|s| - 1];
    NoNewlineKeepsMode(p, body);
    assert s == body + "\r";
    FeedAllConcat(p, body, "\r");
    assert FeedAll(FeedAll(p, body), "\r") == Feed(FeedAll(p, body), '\r');
  }

  /** A tail without a line end adds no record to text that ends with one. */
  lemma {:induction false} TailAddsNothing(p: Parser, s: string, u: string)
    requires Between(p) && EndsLine(s) && forall i :: 0 <= i < |u| ==> !IsNewline(u[i])
    ensures FirstRecord(p, s + u) == FirstRecord(p, s)
    decreases |s|
  {
    hide Feed, FeedAll, EndLine, Line;
    if s == "" {
      assert s + u == u;
      LineEndFinds(u);
    } else {
      LineEndFinds(s);
      var line, rest := SplitLine(p, s);
      LineEndStable(s, u);
      assert s + u == line + (rest + u);
      FirstLine(p, line, rest + u);
      TailAddsNothing(Line(p, line), rest, u);
    }
  }

  /** `Records` and `Consumed` on a text given as its first record and what follows. */
  lemma {:induction false} FirstThenRest(first: string, rest: string, row: CsvRow)
    requires FirstRecord(FRESH, first + rest) == Some(Record(row, |first|))
    ensures Records(first + rest) == [row] + Records(rest)
    ensures Consumed(first + rest) == |first| + Consumed(rest)
  {
    hide FirstRecord, LineEnd, Feed, FeedAll, EndLine, Line;
    assert (first + rest)[|first|..] == rest;
  }

  lemma {:induction false} SplitRecord(s: string) returns (first: string, rest: string, row: CsvRow)
    requires FirstRecord(FRESH, s).Some?
    ensures s == first + rest && FirstRecord(FRESH, s) == Some(Record(row, |first|)) && |rest| < |s|
    ensures Records(s) == [row] + Records(rest) && Consumed(s) == |first| + Consumed(rest)
  {
    hide FirstRecord, LineEnd, Feed, FeedAll, EndLine, Line;
    var r := FirstRecord(FRESH, s).value;
    first, rest, row := s[..r.length], s[r.length..], r.row;
    assert s == first + rest;
    FirstThenRest(first, rest, row);
  }

  lemma {:induction false} StartsWithEmptyRecord(t: string)
    requires t != "" && t[0] == '\n'
    ensures Records(t) == [[]] + Records(t[1..]) && Consumed(t) == 1 + Consumed(t[1..])
  {
    assert t == "\n" + t[1..];
    assert FeedAll(FRESH, "\n") == Feed(FRESH, '\n');
    FirstLine(FRESH, "\n", t[1..]);
    FirstThenRest("\n", t[1..], []);
  }

  /** How the records of `s + t` begin, when `s` is one whole record that `t` completes. */
  lemma {:induction false} GrownCrLf(s: string, t: string, row: CsvRow)
    requires FirstRecord(FRESH, s) == Some(Record(row, |s|)) && JoinsCrLf(s, t)
    ensures Records(s + t) == [row] + Records(t[1..]) && Consumed(s + t) == |s| + 1 + Consumed(t[1..])
  {
    hide Records, Consumed, FirstRecord, LineEnd, Feed, FeedAll, EndLine, Line;
    FirstRecordJoins(FRESH, s, t);
    assert s + t == (s + "\n") + t[1..];
    FirstThenRest(s + "\n", t[1..], row);
  }

  lemma {:induction false} Grown(first: string, rest: string, t: string, row: CsvRow)
    requires FirstRecord(FRESH, first + rest) == Some(Record(row, |first|)) && !(rest == "" && JoinsCrLf(first, t))
    ensures Records(first + rest + t) == [row] + Records(rest + t)
    ensures Consumed(first + rest + t) == |first| + Consumed(rest + t)
  {
    hide Records, Consumed, FirstRecord, LineEnd, Feed, FeedAll, EndLine, Line;
    assert rest == "" ==> first + rest == first;
    FirstRecordStable(FRESH, first + rest, t);
    assert first + rest + t == first + (rest + t);
    FirstThenRest(first, rest + t, row);
  }

  /** `ReadingInParts` where the parts split a CRLF. */
  lemma {:induction false} PartsSplitCrLf(s: string, t: string, row: CsvRow)
    requires FirstRecord(FRESH, s) == Some(Record(row, |s|)) && JoinsCrLf(s, t)
    requires Records(s) == [row] && Consumed(s) == |s|
    ensures Consumed(s + t) == |s| + Consumed(t)
    ensures NonEmpty(Records(s + t)) == NonEmpty(Records(s)) + NonEmpty(Records(t))
    ensures DataRows(Records(s)) == [] && DataRows(Records(s + t)) == NonEmpty(Records(t))
    ensures Records(s + t) != [] && Records(s + t)[0] == row
  {
    hide Records, Consumed, FirstRecord, LineEnd, Feed, FeedAll, EndLine, Line;
    GrownCrLf(s, t, row);
    StartsWithEmptyRecord(t);
    NonEmptyConcat([[]], Records(t[1..]));
    NonEmptyConcat([row], Records(t[1..]));
  }

  /** Reading `s` and later `t` in two parts is reading them at once. */
  ghost predicate PartsAgree(s: string, t: string) {
    && Consumed(s + t) == Consumed(s) + Consumed((s + t)[Consumed(s)..])
    && NonEmpty(Records(s + t)) == NonEmpty(Records(s)) + NonEmpty(Records((s + t)[Consumed(s)..]))
  }

  lemma {:induction false} DropBehind(a: string, b: string, c: string, n: nat)
    requires n <= |b| + |c|
    ensures (a + b + c)[|a| + n..] == (b + c)[n..]
  {
  }

  lemma {:induction false} PartsBehindFirst(first: string, rest: string, t: string, row: CsvRow)
    requires FirstRecord(FRESH, first + rest) == Some(Record(row, |first|)) && !(rest == "" && JoinsCrLf(first, t))
    requires PartsAgree(rest, t)
    ensures PartsAgree(first + rest, t)
  {
    hide Records, Consumed, NonEmpty, FirstRecord, LineEnd, Feed, FeedAll, EndLine, Line;
    var left := (rest + t)[Consumed(rest)..];
    DropBehind(first, rest, t, Consumed(rest));
    FirstThenRest(first, rest, row);
    assert (first + rest + t)[Consumed(first + rest)..] == left;
    Grown(first, rest, t, row);
    assert NonEmpty(Records(first + rest)) == NonEmpty([row]) + NonEmpty(Records(rest)) by {
      NonEmptyConcat([row], Records(rest));
    }
    assert NonEmpty(Records(first + rest + t)) == NonEmpty([row]) + NonEmpty(Records(rest + t)) by {
      NonEmptyConcat([row], Records(rest + t));
    }
  }

  /**
   Block and poll invariance.  However a text arrives, reading what has come so far and
   later continuing where that ended gives the same non-empty records and ends at the same
   place as reading the whole at once.
   */
  lemma {:induction false} ReadingInParts(s: string, t: string)
    ensures Consumed(s + t) == Consumed(s) + Consumed((s + t)[Consumed(s)..])
    ensures NonEmpty(Records(s + t)) == NonEmpty(Records(s)) + NonEmpty(Records((s + t)[Consumed(s)..]))
    decreases |s|
  {
    hide FirstRecord, LineEnd, Feed, FeedAll, EndLine, Line;
    if FirstRecord(FRESH, s).None? {
      assert (s + t)[0..] == s + t;
    } else {
      var first, rest, row := SplitRecord(s);
      if rest == "" && JoinsCrLf(first, t) {
        assert s == first && (s + t)[|s|..] == t;
        PartsSplitCrLf(s, t, row);
      } else {
        ReadingInParts(rest, t);
        PartsBehindFirst(first, rest, t, row);
      }
    }
  }

  /** The same for the rows behind the header, once the header is there. */
  lemma {:induction false} DataInParts(s: string, t: string)
    requires Consumed(s) > 0
    ensures DataRows(Records(s + t)) == DataRows(Records(s)) + NonEmpty(Records((s + t)[Consumed(s)..]))
    ensures Records(s + t) != [] && Records(s) != [] && Records(s + t)[0] == Records(s)[0]
  {
    hide NonEmpty, FirstRecord, LineEnd, Feed, FeedAll, EndLine, Line;
    var first, rest, row := SplitRecord(s);
    if rest == "" && JoinsCrLf(first, t) {
      assert s == first && (s + t)[|s|..] == t;
      PartsSplitCrLf(s, t, row);
    } else {
      Grown(first, rest, t, row);
      ReadingInParts(rest, t);
      DropBehind(first, rest, t, Consumed(rest));
    }
  }

  /** Nothing whole is left behind the last whole record. */
  lemma {:induction false} NothingLeft(s: string)
    ensures FirstRecord(FRESH, s[Consumed(s)..]).None?
    ensures Consumed(s[Consumed(s)..]) == 0 && Records(s[Consumed(s)..]) == []
    decreases |s|
  {
    hide FirstRecord, LineEnd, Feed, FeedAll, EndLine, Line;
    var r := FirstRecord(FRESH, s);
    if r.None? {
      assert s[0..] == s;
    } else {
      NothingLeft(s[r.value.length..]);
      assert s[r.value.length..][Consumed(s[r.value.length..])..] == s[Consumed(s)..];
    }
  }

  /** The text up to the end of the last whole record holds the same records. */
  lemma {:induction false} PrefixIsWhole(s: string)
    ensures Records(s[..Consumed(s)]) == Records(s) && Consumed(s[..Consumed(s)]) == Consumed(s)
    decreases |s|
  {
    hide FirstRecord, LineEnd, Feed, FeedAll, EndLine, Line;
    if FirstRecord(FRESH, s).Some? {
      var first, rest, row := SplitRecord(s);
      PrefixIsWhole(rest);
      FirstRecordCut(FRESH, s, Consumed(s));
      assert s[..Consumed(s)] == first + rest[..Consumed(rest)];
      FirstThenRest(first, rest[..Consumed(rest)], row);
    } else {
      assert s[..0] == "";
    }
  }

  lemma {:induction false} FirstRecordCut(p: Parser, s: string, n: nat)
    requires Between(p) && FirstRecord(p, s).Some? && FirstRecord(p, s).value.length <= n <= |s|
    ensures FirstRecord(p, s[..n]) == FirstRecord(p, s)
    decreases |s|
  {
    hide Feed, FeedAll, EndLine, Line;
    var line, rest := SplitLine(p, s);
    LineEndCut(s, n);
    assert s[..n] == line + rest[..n - |line|];
    FirstLine(p, line, rest[..n - |line|]);
    if !Line(p, line).mode.StartRecord? {
      FirstRecordCut(Line(p, line), rest, n - |line|);
    }
  }

  lemma {:induction false} LineEndCut(s: string, n: nat)
    requires LineEnd(s).Some? && LineEnd(s).value <= n <= |s|
    ensures LineEnd(s[..n]) == LineEnd(s)
  {
    if !IsNewline(s[0]) {
      LineEndCut(s[1..], n - 1);
      assert s[..n][1..] == s[1..][..n - 1];
    }
  }

  /** Bytes after the last line end do not matter for the whole records. */
  lemma {:induction false} CutAtLastLineEnd(s: string, u: string)
    requires EndsLine(s) && forall i :: 0 <= i < |u| ==> !IsNewline(u[i])
    ensures Records(s + u) == Records(s) && Consumed(s + u) == Consumed(s)
    decreases |s|
  {
    hide FirstRecord, LineEnd, Feed, FeedAll, EndLine, Line;
    TailAddsNothing(FRESH, s, u);
    if FirstRecord(FRESH, s).Some? {
      var first, rest, row := SplitRecord(s);
      CutAtLastLineEnd(rest, u);
      assert s + u == first + (rest + u);
      FirstThenRest(first, rest + u, row);
    }
  }

  // --------------------------------------------------------------------- within a line

  /** Reading the beginning of a line ahead. */
  lemma {:induction false} ReadAhead(p: Parser, a: string, t: string)
    requires forall i :: 0 <= i < |a| ==> !IsNewline(a[i])
    ensures FirstRecord(p, a + t) == Behind(|a|, FirstRecord(FeedAll(p, a), t))
  {
    hide Feed, FeedAll, EndLine, LineEnd;
    LineEndFinds(a);
    LineEndSkips(a, t);
    if LineEnd(t).Some? {
      var n := LineEnd(t).value;
      assert (a + t)[..|a| + n] == a + t[..n] && (a + t)[|a| + n..] == t[n..];
      FeedAllConcat(p, a, t[..n]);
    }
  }

  lemma {:induction false} ReadOne(p: Parser, t: string)
    requires t != "" && !IsNewline(t[0])
    ensures FirstRecord(p, t) == Behind(1, FirstRecord(Feed(p, t[0]), t[1..]))
  {
    ReadAhead(p, t[..1], t[1..]);
    assert t == t[..1] + t[1..] && FeedAll(p, t[..1]) == Feed(p, t[0]);
  }

  predicate IsLineEnd(s: string) {
    s == "\n" || s == "\r" || s == "\r\n"
  }

  lemma {:induction false} LineEndIs(t: string)
    requires LineEnd(t).Some? && IsNewline(t[0])
    ensures IsLineEnd(t[..LineEnd(t).value])
  {
    if t[0] == '\r' && |t| > 1 && t[1] == '\n' {
      assert t[..2] == "\r\n";
    } else {
      assert t[..1] == [t[0]];
    }
  }

  predicate InRecord(p: Parser) {
    p.mode.StartField? || p.mode.InField? || p.mode.QuoteInQuotes?
  }

  lemma {:induction false} LineEndCloses(q: Parser, t: string)
    requires InRecord(q) && LineEnd(t).Some? && IsNewline(t[0])
    ensures FirstRecord(q, t) == Some(Record(q.fields + [q.field], LineEnd(t).value))
    ensures IsLineEnd(t[..LineEnd(t).value])
  {
    LineEndIs(t);
    var end := t[..LineEnd(t).value];
    assert FeedAll(q, end) == q.Save(EatNewline) by {
      assert FeedAll(Feed(q, end[0]), end[1..]) == q.Save(EatNewline);
    }
  }
}
