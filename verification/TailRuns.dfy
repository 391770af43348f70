/**
 Whole runs of tailing an append-only file: growth, polls whose transaction goes through
 or fails, crashes and restarts, in any order (monitor_app/services/importer.py).
 */
module TailRuns {
  import opened Options
  import opened CsvReader
  import opened CsvRecords
  import opened TailHeader
  import opened TailImport
  import CsvTail

  // ------------------------------------------------------------------- starting to tail

  /** `init_tail`: blocks of the file, of any sizes; `end` is where the whole records end. */
  method InitOffset(file: string, blocks: seq<string>) returns (end: nat)
    requires Concat(blocks) == file
    ensures end == Consumed(file)
  {
    hide Records, Consumed, FirstRecord, Concat, Pending;
    end := 0;
    var carry := "";
    var i := 0;
    StartsPending(blocks, file);
    while i <= |blocks|
      invariant 0 <= i <= |blocks| + 1 && end <= |file|
      invariant Pending(blocks, i, carry, file[end..])
      invariant end + Consumed(file[end..]) == Consumed(file)
      invariant i > |blocks| ==> Consumed(file[end..]) == 0
    {
      // The read behind the last block returns nothing and ends the loop.
      var block := if i < |blocks| then blocks[i] else "";
      var data := carry + block;
      ghost var more := NextBlock(blocks, i, carry, block, file, end);
      var consumed, count := CsvTail.CompletePrefix(data);
      FurtherOn(file, end, data, more);
      KeepRest(blocks, i, data, more, file, end, consumed);
      if i == |blocks| {
        LoopDone(file, end + consumed, data, end);
      }
      end := end + consumed;
      carry := data[consumed..];
      i := i + 1;
    }
  }

  lemma {:induction false} StartsPending(blocks: seq<string>, file: string)
    requires Concat(blocks) == file
    ensures Pending(blocks, 0, "", file[0..]) && file[0..] == file
  {
    assert blocks[0..] == blocks;
  }

  lemma {:induction false} FurtherOn(file: string, end: nat, data: string, more: string)
    requires end <= |file| && data + more == file[end..]
    ensures end + Consumed(data) <= |file|
    ensures Consumed(file[end..]) == Consumed(data) + Consumed(file[end + Consumed(data)..])
  {
    hide Records, FirstRecord;
    ReadingInParts(data, more);
    assert file[end..][Consumed(data)..] == file[end + Consumed(data)..];
  }

  function CursorOf(p: Position): Cursor {
    Cursor(p.offset, p.head, p.tail)
  }

  /** `init_tail` as a whole: the position behind the last whole record of the file. */
  function Init(file: string): Position {
    var o := Consumed(file);
    Position(o, if o == 0 then None else HeaderIn(FirstBlock(file, o)), First(file[..o]), Last(file[..o]))
  }

  /** `resume_tail` with a saved cursor: from there if the windows still match, else from the start. */
  function Resume(file: string, c: Cursor): Position {
    if |file| < c.offset || |c.tail| > c.offset || ReadAt(file, 0, |c.head|) != c.head
       || ReadAt(file, c.offset - |c.tail|, |c.tail|) != c.tail
    then BEGINNING
    else Position(c.offset, if c.offset == 0 then None else HeaderIn(FirstBlock(file, c.offset)), c.head, c.tail)
  }

  /** `init_tail`: what is in the file already is not imported. */
  method InitTail(file: string, blocks: seq<string>) returns (p: Position)
    requires Concat(blocks) == file
    ensures p == Init(file)
    ensures p.offset == Consumed(file) && Windows(file, p) && (p.offset == 0 ==> p.header.None?)
  {
    hide Records, Consumed, FirstRecord, HeaderIn;
    var end := InitOffset(file, blocks);
    var header := None;
    if end > 0 {
      header := ReadHeader(FirstBlock(file, end));
    }
    return Position(end, header, First(file[..end]), Last(file[..end]));
  }

  /** `resume_tail`: on from the saved place, or from the start of a file that is another one. */
  method ResumeTail(file: string, c: Cursor) returns (p: Position)
    ensures p == Resume(file, c)
  {
    hide ReadAt, HeaderIn;
    if |file| < c.offset || |c.tail| > c.offset || ReadAt(file, 0, |c.head|) != c.head
       || ReadAt(file, c.offset - |c.tail|, |c.tail|) != c.tail {
      return BEGINNING;
    }
    var header := None;
    if c.offset > 0 {
      header := ReadHeader(FirstBlock(file, c.offset));
    }
    return Position(c.offset, header, c.head, c.tail);
  }

  /**
   A restart goes on at the saved place exactly if the file is not shorter and holds the
   bytes that were saved with it; otherwise it begins again.
   */
  lemma {:induction false} ResumeIff(file: string, c: Cursor)
    ensures var p := Resume(file, c);
      if |c.tail| <= c.offset <= |file| && AllKept(file, 0, c.head) && AllKept(file, c.offset - |c.tail|, c.tail)
      then p.offset == c.offset && p.head == c.head && p.tail == c.tail && (c.offset == 0 ==> p.header.None?)
      else p == Position(0, None, "", "")
  {
    hide AllKept, HeaderIn;
    if |c.tail| <= c.offset <= |file| {
      ReadsBack(file, 0, c.head);
      ReadsBack(file, c.offset - |c.tail|, c.tail);
    }
  }

  lemma {:induction false} NoHeaderNoRows(convert: RowConverter, p: Position, db: Committed, file: string)
    requires 0 < p.offset <= |file| && p.header.None?
    ensures var (q, d) := Reads(convert, p, db, file);
      d.rows == db.rows && q.header.None? && q.offset == p.offset + Consumed(file[p.offset..])
  {
  }

  /**
   A header with a quote that does not end within the first block is lost: after a restart
   a poll saves a position behind the last whole record and has imported nothing.
   */
  lemma {:induction false} LostHeaderLosesRows(convert: RowConverter, file: string, c: Cursor, more: string,
                                               rows: seq<CsvRow>)
    requires Boundary(file, c.offset) && c.offset > 0 && Windows(file, Position(c.offset, None, c.head, c.tail))
    requires '"' in FirstBlock(file, c.offset) && FirstRecord(FRESH, FirstBlock(file, c.offset)).None?
    ensures var p := Resume(file + more, c);
      && p == Position(c.offset, None, c.head, c.tail)
      && var (q, db) := TailImport.Poll(convert, p, Committed(rows, Some(c)), file + more);
         && db.rows == rows && q.header.None?
         && q.offset == Consumed(file + more) && db.saved == Some(CursorOf(q))
  {
    hide Records, Consumed, FirstRecord, HeaderIn, Import;
    var now := file + more;
    Resumed(file, c, more);
    CutHeader(FirstBlock(file, c.offset));
    PolledTo(convert, now, Position(c.offset, None, c.head, c.tail), rows);
  }

  lemma {:induction false} Resumed(file: string, c: Cursor, more: string)
    requires Boundary(file, c.offset) && c.offset > 0 && Windows(file, Position(c.offset, None, c.head, c.tail))
    ensures Boundary(file + more, c.offset) && Windows(file + more, Position(c.offset, None, c.head, c.tail))
    ensures Resume(file + more, c) == Position(c.offset, HeaderIn(FirstBlock(file, c.offset)), c.head, c.tail)
  {
    hide Records, Consumed, FirstRecord, HeaderIn;
    var now := file + more;
    assert now[..c.offset] == file[..c.offset] && FirstBlock(now, c.offset) == FirstBlock(file, c.offset);
  }

  lemma {:induction false} PolledTo(convert: RowConverter, file: string, p: Position, rows: seq<CsvRow>)
    requires Boundary(file, p.offset) && p.offset > 0 && Windows(file, p)
    ensures Sane(p)
    ensures var (q, db) := TailImport.Poll(convert, p, Committed(rows, Some(CursorOf(p))), file);
      && q.header == p.header && q.offset == Consumed(file) && db.saved == Some(CursorOf(q))
      && db.rows == rows + if p.header.None? then [] else Import(convert, p.header.value, Records(file[p.offset..]))
  {
    hide Records, Consumed, FirstRecord, First, Last;
    var before, left := file[..p.offset], file[p.offset..];
    var n := Consumed(left);
    assert file == before + left;
    ReadingInParts(before, left);
    ResetExactly(file, file, p);
    AdvanceKeepsWindows(file, p, n);
    assert file[p.offset..p.offset + n] == left[..n];
    NothingAtAll("");
    assert rows + [] == rows;
  }

  /**
   A header without a quote that is longer than the first block is cut: after a restart a
   poll imports the new rows under the part of the header that lies in the block.
   */
  lemma {:induction false} CutHeaderIsUsed(convert: RowConverter, file: string, c: Cursor, more: string,
                                           rows: seq<CsvRow>)
    requires Boundary(file, c.offset) && c.offset > 0 && Windows(file, Position(c.offset, None, c.head, c.tail))
    requires '"' !in FirstBlock(file, c.offset) && FirstRecord(FRESH, FirstBlock(file, c.offset)).None?
    ensures var p := Resume(file + more, c);
      var header := Line(FRESH, FirstBlock(file, c.offset)).fields;
      && p == Position(c.offset, Some(header), c.head, c.tail)
      && var (q, db) := TailImport.Poll(convert, p, Committed(rows, Some(c)), file + more);
         && db.rows == rows + Import(convert, header, Records((file + more)[c.offset..]))
         && q.offset == Consumed(file + more) && db.saved == Some(CursorOf(q))
  {
    hide Records, Consumed, FirstRecord, HeaderIn, Import, Line;
    Resumed(file, c, more);
    CutHeader(FirstBlock(file, c.offset));
    PolledTo(convert, file + more, Resume(file + more, c), rows);
  }

  // ------------------------------------------------------------------------------- runs

  /** `base` is where tailing began for the first time. */
  datatype System = System(file: string, db: Committed, running: Option<Position>, base: nat)

  datatype Event =
    | Grow(bytes: string)
    | Start
    | Poll(commits: bool)
    | Crash

  ghost predicate Next(convert: RowConverter, s: System, e: Event, s': System) {
    match e
    case Grow(bytes) => s' == s.(file := s.file + bytes)
    case Start =>
      s.running.None? &&
      (if s.db.saved.None? then
         var p := Init(s.file);
         s' == s.(running := Some(p), base := p.offset, db := s.db.(saved := Some(CursorOf(p))))
       else
         s' == s.(running := Some(Resume(s.file, s.db.saved.value))))
    case Poll(commits) =>
      s.running.Some? && Sane(s.running.value) &&
      (if commits then
         var (p, db) := TailImport.Poll(convert, s.running.value, s.db, s.file);
         s' == s.(running := Some(p), db := db)
       else
         s' == s.(running := Some(TailImport.Start(s.file, s.running.value))))
    case Crash => s' == s.(running := None)
  }

  ghost predicate Run(convert: RowConverter, states: seq<System>, events: seq<Event>) {
    && |states| == |events| + 1
    && states[0].db == Committed([], None) && states[0].running.None?
    && forall i :: 0 <= i < |events| ==> Next(convert, states[i], events[i], states[i + 1])
  }

  /** Everything a whole import of the first `o` bytes would put into the table. */
  ghost function Whole(convert: RowConverter, file: string, o: nat): seq<CsvRow>
    requires o <= |file|
  {
    var rows := Records(file[..o]);
    if rows == [] then [] else Import(convert, rows[0], rows[1..])
  }

  /** A position is right for the file: a record boundary, its windows and its header. */
  ghost predicate Right(file: string, p: Position) {
    && Boundary(file, p.offset) && Windows(file, p)
    && (p.offset == 0 ==> p.header == None)
    && (p.offset > 0 ==> Records(file[..p.offset]) != [] && p.header == Some(Records(file[..p.offset])[0]))
  }

  /** The cursor belongs to the file, and the table holds each row up to it exactly once. */
  ghost predicate Saved(convert: RowConverter, s: System, c: Cursor) {
    && Boundary(s.file, c.offset) && Windows(s.file, Position(c.offset, None, c.head, c.tail))
    && s.base <= c.offset && Boundary(s.file, s.base)
    && Whole(convert, s.file, s.base) + s.db.rows == Whole(convert, s.file, c.offset)
  }

  ghost predicate Inv(convert: RowConverter, s: System) {
    && (s.db.saved.None? ==> s.db.rows == [] && s.running.None?)
    && (s.db.saved.Some? ==> Saved(convert, s, s.db.saved.value))
    && (s.running.Some? ==>
          && s.db.saved.Some? && CursorOf(s.running.value) == s.db.saved.value
          && Right(s.file, s.running.value))
  }

  lemma {:induction false} GrowKeeps(convert: RowConverter, s: System, bytes: string)
    requires Inv(convert, s)
    ensures Inv(convert, s.(file := s.file + bytes))
  {
    hide Records, Consumed, Import, First, Last;
    var file := s.file + bytes;
    if s.db.saved.Some? {
      var o := s.db.saved.value.offset;
      assert file[..o] == s.file[..o] && file[..s.base] == s.file[..s.base];
    }
  }

  /** Where a restart continues, and what it needs of the header. */
  function StartOffset(s: System): nat {
    if s.db.saved.None? then Consumed(s.file) else s.db.saved.value.offset
  }

  predicate FindsHeader(s: System) {
    StartOffset(s) <= |s.file| ==> HeaderFound(s.file, StartOffset(s))
  }

  lemma {:induction false} InitIsRight(file: string)
    requires HeaderFound(file, Consumed(file))
    ensures Right(file, Init(file))
  {
    hide Records, FirstRecord, Feed, FeedAll, EndLine, Line, HeaderFound;
    var o := Consumed(file);
    PrefixIsWhole(file);
    if o > 0 {
      HeaderFoundIff(file, o);
    }
  }

  /** The windows of a grown file still match: a restart continues where it left off. */
  lemma {:induction false} ResumeIsRight(file: string, c: Cursor)
    requires Boundary(file, c.offset) && Windows(file, Position(c.offset, None, c.head, c.tail))
    requires HeaderFound(file, c.offset)
    ensures Right(file, Resume(file, c)) && CursorOf(Resume(file, c)) == c
  {
    hide Records, Consumed, FirstRecord, HeaderIn, HeaderFound;
    if c.offset > 0 {
      HeaderFoundIff(file, c.offset);
    }
  }

  lemma {:induction false} StartKeeps(convert: RowConverter, s: System, s': System)
    requires Inv(convert, s) && Next(convert, s, Start, s') && FindsHeader(s)
    ensures Inv(convert, s')
  {
    hide Records, Consumed, Import, Init, Resume, First, Last, HeaderFound;
    if s.db.saved.None? {
      InitIsRight(s.file);
    } else {
      ResumeIsRight(s.file, s.db.saved.value);
    }
  }

  /** The first start begins behind the last whole record and adds nothing. */
  lemma {:induction false} BeginsAtTheEnd(convert: RowConverter, s: System, s': System)
    requires s.db.saved.None? && Next(convert, s, Start, s')
    ensures s'.base == Consumed(s.file) && s'.db.rows == s.db.rows
    ensures s'.running.Some? && s'.running.value.offset == s'.base && Windows(s.file, s'.running.value)
    ensures s'.db.saved == Some(CursorOf(s'.running.value))
  {
    hide Records, Consumed, FirstRecord, HeaderIn;
  }

  /** What a poll adds takes the table from one boundary to the next. */
  lemma {:induction false} ReadsFurther(convert: RowConverter, p: Position, file: string)
    requires Right(file, p)
    ensures var left := file[p.offset..];
      var o := p.offset + Consumed(left);
      && Boundary(file, o) && Consumed(file) == o
      && (o > 0 ==> Records(file[..o]) != [] && HeaderOf(p, Records(left)) == Some(Records(file[..o])[0]))
      && (o == 0 ==> Records(left) == [])
      && Whole(convert, file, p.offset) + Imported(convert, HeaderOf(p, Records(left)), DataOf(p, Records(left)))
         == Whole(convert, file, o)
  {
    hide Consumed, Import, FirstRecord, First, Last, Windows;
    var before, left := file[..p.offset], file[p.offset..];
    var n := Consumed(left);
    var step := left[..n];
    var o := p.offset + n;
    assert file == before + left && file[..o] == before + step;
    PrefixIsWhole(left);
    ReadingInParts(before, left);
    ReadingInParts(before, step);
    assert (before + left)[p.offset..] == left && (before + step)[p.offset..] == step;
    if p.offset == 0 {
      assert before == "" && before + step == step;
      NothingAtAll(left);
    } else {
      ImportBehindHeader(convert, before, step);
    }
  }

  lemma {:induction false} NothingAtAll(left: string)
    ensures Records("") == []
    ensures (Consumed(left) == 0) == (Records(left) == [])
  {
  }

  lemma {:induction false} PollKeeps(convert: RowConverter, s: System, commits: bool, s': System)
    requires Inv(convert, s) && Next(convert, s, Poll(commits), s')
    ensures Inv(convert, s')
    ensures commits ==> s'.running.value.offset == Consumed(s.file)
  {
    var p := s.running.value;
    if commits {
      if |s.file| <= p.offset {
        assert s.file[..p.offset] == s.file;
      } else {
        CommitKeeps(convert, s, p, s');
      }
    }
  }

  lemma {:induction false} CommitKeeps(convert: RowConverter, s: System, p: Position, s': System)
    requires Inv(convert, s) && s.running == Some(p) && p.offset < |s.file|
    requires var (q, db) := Reads(convert, p, s.db, s.file); s' == s.(running := Some(q), db := db)
    ensures Inv(convert, s') && s'.running.value.offset == Consumed(s.file)
  {
    hide Records, Consumed, Import, FirstRecord, First, Last, Boundary;
    var left := s.file[p.offset..];
    var n := Consumed(left);
    ReadsFurther(convert, p, s.file);
    var header := HeaderOf(p, Records(left));
    AdvanceKeepsWindows(s.file, p.(header := header), n);
    assert s.file[p.offset..p.offset + n] == left[..n];
    var added := Imported(convert, header, DataOf(p, Records(left)));
    Associative(Whole(convert, s.file, s.base), s.db.rows, added);
    if n == 0 {
      assert left[..n] == "";
    }
  }

  /**
   Main result.  However growth, polls, failed transactions, crashes and restarts
   interleave, the table together with the rows from before the first start holds exactly
   the converted data rows of the file up to the saved offset, in their order and each once
   (spelled out by `EachOnce` where tailing began at the start of the file); the saved
   windows are the first and last bytes before it.  The one condition is that each start
   finds the header (`HeaderFoundIff`).
   */
  lemma {:induction false} EveryRun(convert: RowConverter, states: seq<System>, events: seq<Event>)
    requires Run(convert, states, events)
    requires forall i :: 0 <= i < |events| && events[i].Start? ==> FindsHeader(states[i])
    ensures Inv(convert, states[|events|])
    ensures var s := states[|events|];
      s.db.saved.Some? ==>
        && s.base <= s.db.saved.value.offset <= |s.file|
        && Whole(convert, s.file, s.base) + s.db.rows == Whole(convert, s.file, s.db.saved.value.offset)
        && (s.base == 0 ==> s.db.rows == Whole(convert, s.file, s.db.saved.value.offset))
        && (s.base == 0 ==>
              var records := Records(s.file[..s.db.saved.value.offset]);
              if records == [] then s.db.rows == [] else AddsEachOnce(convert, records[0], records[1..], s.db.rows))
        && (s.base > 0 ==>
              var records := Records(s.file[..s.db.saved.value.offset]);
              && records != []
              && AddsEachOnce(convert, records[0], Records(s.file[s.base..s.db.saved.value.offset]), s.db.rows))
    decreases |events|
  {
    hide FindsHeader, Next, Inv;
    AtEnd(convert, states, events);
    var s := states[|events|];
    if s.db.saved.Some? {
      InvMeans(convert, s);
      var records := Records(s.file[..s.db.saved.value.offset]);
      if records != [] {
        ImportsEachOnce(convert, records[0], records[1..]);
      }
      if s.base > 0 {
        SinceBase(convert, s);
      }
    }
  }

  /** What was added since tailing began comes from the records behind the place where it began. */
  lemma {:induction false} SinceBase(convert: RowConverter, s: System)
    requires Inv(convert, s) && s.db.saved.Some? && s.base > 0
    ensures s.base <= s.db.saved.value.offset <= |s.file|
    ensures var records := Records(s.file[..s.db.saved.value.offset]);
      && records != []
      && AddsEachOnce(convert, records[0], Records(s.file[s.base..s.db.saved.value.offset]), s.db.rows)
  {
    hide Records, Consumed, Import, First, Last, Windows, AddsEachOnce;
    var before, since := s.file[..s.base], s.file[s.base..s.db.saved.value.offset];
    assert before + since == s.file[..s.db.saved.value.offset];
    assert (before + since)[Consumed(before)..] == since;
    ImportBehindHeader(convert, before, since);
    var header := Records(before)[0];
    var was, added := Import(convert, header, Records(before)[1..]), Import(convert, header, Records(since));
    assert was + s.db.rows == was + added;
    assert (was + s.db.rows)[|was|..] == s.db.rows && (was + added)[|was|..] == added;
    ImportsEachOnce(convert, header, Records(since));
  }

  lemma {:induction false} InvMeans(convert: RowConverter, s: System)
    requires Inv(convert, s) && s.db.saved.Some?
    ensures s.base <= s.db.saved.value.offset <= |s.file|
    ensures Whole(convert, s.file, s.base) + s.db.rows == Whole(convert, s.file, s.db.saved.value.offset)
    ensures s.base == 0 ==> s.db.rows == Whole(convert, s.file, s.db.saved.value.offset)
  {
    hide Records, Consumed, Import;
    NothingAtAll("");
    assert s.file[..0] == "";
  }

  lemma {:induction false} AtEnd(convert: RowConverter, states: seq<System>, events: seq<Event>)
    requires Run(convert, states, events)
    requires forall i :: 0 <= i < |events| && events[i].Start? ==> FindsHeader(states[i])
    ensures Inv(convert, states[|events|])
    decreases |events|
  {
    hide FindsHeader, Next, Inv;
    if |events| == 0 {
      Initially(convert, states[0]);
    } else {
      var n := |events| - 1;
      AtEnd(convert, states[..|events|], events[..n]);
      NextKeeps(convert, states[n], events[n], states[n + 1]);
    }
  }

  lemma {:induction false} Initially(convert: RowConverter, s: System)
    requires s.db == Committed([], None) && s.running.None?
    ensures Inv(convert, s)
  {
  }

  lemma {:induction false} NextKeeps(convert: RowConverter, s: System, e: Event, s': System)
    requires Inv(convert, s) && Next(convert, s, e, s') && (e.Start? ==> FindsHeader(s))
    ensures Inv(convert, s')
  {
    hide FindsHeader, Inv;
    match e
    case Grow(bytes) => GrowKeeps(convert, s, bytes);
    case Start => StartKeeps(convert, s, s');
    case Poll(commits) => PollKeeps(convert, s, commits, s');
    case Crash => CrashKeeps(convert, s);
  }

  lemma {:induction false} CrashKeeps(convert: RowConverter, s: System)
    requires Inv(convert, s)
    ensures Inv(convert, s.(running := None))
  {
    hide Records, Consumed, Import, First, Last;
  }
}
