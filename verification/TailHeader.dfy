/**
 How a restart finds the header of a CSV file again (`resume_tail` and `init_tail` in
 monitor_app/services/importer.py): it parses the first record of the first block.
 */
module TailHeader {
  import opened Options
  import opened CsvReader
  import opened CsvRecords
  import opened TailImport
  import CsvTail

  /** The header a restart reads from the first block of the file. */
  function HeaderIn(block: string): Option<CsvRow> {
    if FirstRecord(FRESH, block).Some? then Some(FirstRecord(FRESH, block).value.row)
    else if block != "" && LineEnd(block).None? && '"' !in block then
      HasARow(block);
      Some(AllRows(block)[0])
    else None
  }

  lemma {:induction false} HasARow(block: string)
    requires block != ""
    ensures AllRows(block) != []
  {
    CsvTail.TextGivesARow(FRESH, block, 0);
  }

  /** `first[:_first_record_end(first)]`, parsed; its first row is the header. */
  method ReadHeader(block: string) returns (header: Option<CsvRow>)
    ensures block != "" ==> header == HeaderIn(block)
  {
    if block == "" {
      return None;
    }
    var end := CsvTail.FirstRecordEnd(block);
    var rows, n := CsvTail.ParseComplete(block[..end]);
    if LineEnd(block).None? {
      HasARow(block);
      CsvTail.NoRecordWithoutLineEnd(block);
      assert block[..end] == block;
    } else {
      RecordsOfFirst(block, end);
    }
    return if rows == [] then None else Some(rows[0]);
  }

  lemma {:induction false} RecordsOfFirst(block: string, end: nat)
    requires end <= |block| && LineEnd(block).Some?
    requires FirstRecord(FRESH, block).Some? ==> end == FirstRecord(FRESH, block).value.length
    ensures var r := FirstRecord(FRESH, block);
      if r.Some? then Records(block[..end]) != [] && Records(block[..end])[0] == r.value.row
      else Records(block[..end]) == []
  {
    hide LineEnd, Feed, FeedAll, EndLine, Line;
    if FirstRecord(FRESH, block).Some? {
      FirstRecordCut(FRESH, block, end);
    } else if FirstRecord(FRESH, block[..end]).Some? {
      assert block == block[..end] + block[end..];
      if FirstRecord(FRESH, block[..end]).value.length == end && JoinsCrLf(block[..end], block[end..]) {
        FirstRecordJoins(FRESH, block[..end], block[end..]);
      } else {
        FirstRecordStable(FRESH, block[..end], block[end..]);
      }
    }
  }

  /** The block from which a restart at `offset` reads the header. */
  function FirstBlock(file: string, offset: nat): string
    requires offset <= |file|
  {
    file[..if offset <= BLOCK then offset else BLOCK]
  }

  /** A position that lies behind whole records. */
  ghost predicate Boundary(file: string, o: nat) {
    o <= |file| && Consumed(file[..o]) == o
  }

  // ------------------------------------------------------- what is read so far only grows

  function RowWeight(fields: CsvRow): nat {
    if fields == [] then 0 else RowWeight(fields[..|fields| - 1]) + |fields[|fields| - 1]| + 1
  }

  /** The characters and fields read so far, a field in progress included. */
  function Weight(p: Parser): nat {
    RowWeight(p.fields) + |p.field| + if p.mode.StartRecord? || p.mode.EatNewline? || p.mode.Bad? then 0 else 1
  }

  /** Between records there is no field in progress. */
  predicate Clean(p: Parser) {
    p.mode.StartRecord? || p.mode.EatNewline? || p.mode.Bad? ==> p.field == ""
  }

  lemma {:induction false} SaveWeighs(fields: CsvRow, field: string)
    ensures RowWeight(fields + [field]) == RowWeight(fields) + |field| + 1
  {
    assert (fields + [field])[..|fields|] == fields;
  }

  /** A character that adds to the row. */
  predicate Adds(p: Parser, c: char) {
    match p.mode
    case StartField => !IsNewline(c) && c != '"'
    case InField => !IsNewline(c)
    case InQuotes => c != '"'
    case QuoteInQuotes => !IsNewline(c)
    case _ => false
  }

  lemma {:induction false} FeedWeighs(p: Parser, c: char)
    requires Clean(p)
    ensures Clean(Feed(p, c)) && Weight(Feed(p, c)) >= Weight(p)
    ensures Adds(p, c) ==> Weight(Feed(p, c)) > Weight(p)
  {
    hide RowWeight;
    SaveWeighs(p.fields, p.field);
  }

  lemma {:induction false} FeedAllWeighs(p: Parser, s: string)
    requires Clean(p)
    ensures Clean(FeedAll(p, s)) && Weight(FeedAll(p, s)) >= Weight(p)
    decreases |s|
  {
    hide Feed, Weight, Clean;
    if s != "" {
      FeedWeighs(p, s[0]);
      FeedAllWeighs(Feed(p, s[0]), s[1..]);
    }
  }

  lemma {:induction false} EndLineWeighs(p: Parser)
    requires Clean(p)
    ensures Clean(EndLine(p)) && Weight(EndLine(p)) == Weight(p)
  {
    SaveWeighs(p.fields, p.field);
  }

  /** A record weighs at least what has been read of it. */
  lemma {:induction false} RecordWeighs(p: Parser, s: string)
    requires Clean(p) && FirstRecord(p, s).Some?
    ensures s != "" && RowWeight(FirstRecord(p, s).value.row) >= Weight(Feed(p, s[0])) >= Weight(p)
    decreases |s|
  {
    hide EndLine, Feed, Weight, Clean;
    var n := LineEnd(s).value;
    var line := s[..n];
    FeedWeighs(p, s[0]);
    FeedAllWeighs(Feed(p, line[0]), line[1..]);
    EndLineWeighs(FeedAll(p, line));
    var q := Line(p, line);
    if q.mode.StartRecord? {
      NothingPending(q);
    } else {
      RecordWeighs(q, s[n..]);
    }
  }

  lemma {:induction false} NothingPending(q: Parser)
    requires Clean(q) && q.mode.StartRecord?
    ensures Weight(q) == RowWeight(q.fields)
  {
  }

  // --------------------------------------------------------------------- cutting a line

  /** What may follow a cut without changing the row: a line end, or behind a comma an empty quoted field. */
  predicate AddsNothing(behindComma: bool, s: string) {
    IsLineEnd(s) || (behindComma && |s| > 2 && s[..2] == "\"\"" && IsLineEnd(s[2..]))
  }

  /**
   Where a cut leaves the row as it is: what follows up to the end of the record is a line
   end, or an empty quoted field behind a comma.
   */
  lemma {:induction false} SameRowIff(q: Parser, t: string)
    requires (q.mode.StartField? || q.mode.InField?) && FirstRecord(q, t).Some?
    ensures var r := FirstRecord(q, t).value;
      r.row == q.fields + [q.field] <==> AddsNothing(q.mode.StartField?, t[..r.length])
  {
    hide LineEnd, RowWeight;
    var r := FirstRecord(q, t).value;
    LineEndFinds(t);
    RecordWeighs(q, t);
    FeedWeighs(q, t[0]);
    SaveWeighs(q.fields, q.field);
    if IsNewline(t[0]) {
      LineEndCloses(q, t);
    } else if q.mode.StartField? && t[0] == '"' {
      EmptyQuotedIff(q, t);
    }
  }

  lemma {:induction false} EmptyQuotedIff(q: Parser, t: string)
    requires q.mode.StartField? && FirstRecord(q, t).Some? && t[0] == '"'
    ensures var r := FirstRecord(q, t).value;
      r.row == q.fields + [q.field] <==> AddsNothing(true, t[..r.length])
  {
    hide LineEnd, RowWeight, FirstRecord;
    var r := FirstRecord(q, t).value;
    var inside, behind := q.(mode := InQuotes), q.(mode := QuoteInQuotes);
    ReadOne(q, t);
    RecordWeighs(inside, t[1..]);
    FeedWeighs(inside, t[1]);
    SaveWeighs(q.fields, q.field);
    if t[1] == '"' {
      ReadOne(inside, t[1..]);
      assert t[1..][1..] == t[2..];
      RecordWeighs(behind, t[2..]);
      FeedWeighs(behind, t[2]);
      LineEndFinds(t[2..]);
      if IsNewline(t[2]) {
        LineEndCloses(behind, t[2..]);
        assert t[..r.length][2..] == t[2..][..r.length - 2];
      } else {
        assert t[..r.length][2..][0] == t[2];
      }
    }
  }

  /** A line without quotes, up to somewhere within it. */
  lemma {:induction false} WithinPlainLine(a: string)
    requires a != "" && '"' !in a && forall i :: 0 <= i < |a| ==> !IsNewline(a[i])
    ensures var q := FeedAll(FRESH, a);
      Clean(q) && q.mode == (if a[|a| - 1] == ',' then StartField else InField)
  {
    var before, last := a[..|a| - 1], a[|a| - 1];
    assert a == before + [last] && last in a;
    FeedAllConcat(FRESH, before, [last]);
    assert FeedAll(FeedAll(FRESH, before), [last]) == Feed(FeedAll(FRESH, before), last);
    if before != "" {
      assert forall c :: c in before ==> c in a;
      WithinPlainLine(before);
    }
  }

  // ------------------------------------------------------------------ what a restart finds

  /**
   What is found in a block without a whole record: nothing if it has a quote, and
   otherwise the part of the header that lies in the block.
   */
  lemma {:induction false} CutHeader(block: string)
    requires block != "" && FirstRecord(FRESH, block).None?
    ensures '"' in block ==> HeaderIn(block) == None
    ensures '"' !in block ==> LineEnd(block).None? && HeaderIn(block) == Some(Line(FRESH, block).fields)
  {
    if '"' !in block {
      if LineEnd(block).Some? {
        var n := LineEnd(block).value;
        assert block == block[..n] + block[n..];
        CsvTail.OneLineIsOneRecord(block, block[..n], block[n..]);
      }
      LineEndFinds(block);
      WithinPlainLine(block);
      assert block[..|block|] == block;
    }
  }

  /** What a restart at `o` finds is the header. */
  predicate HeaderFound(file: string, o: nat)
    requires o <= |file|
  {
    var block := FirstBlock(file, o);
    || o == 0
    || FirstRecord(FRESH, block).Some?
    || (&& '"' !in block && FirstRecord(FRESH, file[..o]).Some?
        && var end := FirstRecord(FRESH, file[..o]).value.length;
           BLOCK <= end && AddsNothing(block[|block| - 1] == ',', file[BLOCK..end]))
  }

  /**
   A restart takes the right header if and only if its record ends within the first block,
   or the block has no quote and nothing but a line end, or an empty quoted field behind a
   comma, lies beyond it.
   */
  lemma {:induction false} HeaderFoundIff(file: string, o: nat)
    requires Boundary(file, o) && o > 0
    ensures Records(file[..o]) != []
    ensures HeaderIn(FirstBlock(file, o)) == Some(Records(file[..o])[0]) <==> HeaderFound(file, o)
  {
    hide LineEnd, Feed, FeedAll, EndLine, Line, HeaderIn, AddsNothing;
    var s := file[..o];
    assert FirstRecord(FRESH, s).Some?;
    var k := if o <= BLOCK then o else BLOCK;
    var a, b := s[..k], s[k..];
    assert s == a + b && FirstBlock(file, o) == a;
    if FirstRecord(FRESH, a).Some? {
      WholeHeader(a, b);
    } else {
      CutHeader(a);
      assert b == "" ==> a == s;
      if '"' !in a {
        CutHeaderIff(a, b);
        var end := FirstRecord(FRESH, s).value.length;
        assert k == BLOCK;
        PartOfPrefix(file, k, end, o);
      }
    }
  }

  lemma {:induction false} PartOfPrefix(s: string, i: nat, j: nat, o: nat)
    requires i <= j <= o <= |s|
    ensures s[i..j] == s[..o][i..][..j - i]
  {
  }

  lemma {:induction false} WholeHeader(a: string, b: string)
    requires FirstRecord(FRESH, a).Some?
    ensures FirstRecord(FRESH, a + b).Some? && HeaderIn(a) == Some(FirstRecord(FRESH, a + b).value.row)
  {
    hide LineEnd, Feed, FeedAll, EndLine, Line, FirstRecord;
    if FirstRecord(FRESH, a).value.length == |a| && JoinsCrLf(a, b) {
      FirstRecordJoins(FRESH, a, b);
    } else {
      FirstRecordStable(FRESH, a, b);
    }
  }

  lemma {:induction false} CutHeaderIff(a: string, b: string)
    requires a != "" && '"' !in a && LineEnd(a).None? && FirstRecord(FRESH, a + b).Some?
    ensures var r := FirstRecord(FRESH, a + b).value;
      && |a| < r.length
      && (r.row == Line(FRESH, a).fields <==> AddsNothing(a[|a| - 1] == ',', b[..r.length - |a|]))
  {
    hide LineEnd, Feed, FeedAll, FirstRecord, AddsNothing;
    LineEndFinds(a);
    WithinPlainLine(a);
    ReadAhead(FRESH, a, b);
    SameRowIff(FeedAll(FRESH, a), b);
  }

  /** In particular, a header that fits into the first block is found. */
  lemma {:induction false} HeaderWithinBlock(file: string, o: nat)
    requires o <= |file| && FirstRecord(FRESH, file[..o]).Some? && FirstRecord(FRESH, file[..o]).value.length <= 1048576
    ensures HeaderFound(file, o)
  {
    hide LineEnd, Feed, FeedAll, EndLine, Line;
    var k := if o <= BLOCK then o else BLOCK;
    assert FirstBlock(file, o) == file[..o][..k];
    FirstRecordCut(FRESH, file[..o], k);
  }

  /**
   A header with a quote that is longer than the block is not found again
   (`TailRuns.LostHeaderLosesRows` shows what that means).
   */
  lemma {:induction false} LongQuotedHeaderIsLost(file: string, o: nat)
    requires Boundary(file, o) && o > 0
    requires '"' in FirstBlock(file, o) && FirstRecord(FRESH, file[..o]).value.length > 1048577
    ensures HeaderIn(FirstBlock(file, o)) == None
  {
    hide LineEnd, Feed, FeedAll, EndLine, Line;
    var s := file[..o];
    var a, b := s[..BLOCK], s[BLOCK..];
    assert s == a + b && FirstBlock(file, o) == a;
    if FirstRecord(FRESH, a).Some? {
      if FirstRecord(FRESH, a).value.length == |a| && JoinsCrLf(a, b) {
        FirstRecordJoins(FRESH, a, b);
      } else {
        FirstRecordStable(FRESH, a, b);
      }
      assert false;
    }
  }
}
