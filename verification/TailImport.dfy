/**
 Importing a CSV file that is being appended to: `tail_append` and its saved position
 (monitor_app/services/importer.py), on rows without a primary key.

 `Poll` is what one call does to the in-memory position and the database; `Importer` does
 it with the source's loop, and `TailRuns` lets polls, failed transactions, crashes and
 restarts interleave with the growth of the file.
 */
module TailImport {
  import opened Options
  import opened CsvReader
  import opened CsvRecords
  import CsvTail

  /** How many bytes at the start and before the position are remembered. */
  const WINDOW := 4096

  /** How much of the file a restart reads to find the header again. */
  const BLOCK := 1048576

  type RowConverter = (CsvRow, CsvRow) -> Option<CsvRow>

  /** The position in the file; `head` and `tail` are the bytes that identify it. */
  datatype Position = Position(offset: nat, header: Option<CsvRow>, head: string, tail: string)

  /** What `_ingest_state` keeps of a position. */
  datatype Cursor = Cursor(offset: nat, head: string, tail: string)

  datatype Committed = Committed(rows: seq<CsvRow>, saved: Option<Cursor>)

  const BEGINNING := Position(0, None, "", "")

  function First(s: string): string {
    if |s| <= WINDOW then s else s[..WINDOW]
  }

  function Last(s: string): string {
    if |s| <= WINDOW then s else s[|s| - WINDOW..]
  }

  /** Conversion of raw rows; empty lines and rows that cannot be converted are skipped. */
  function Import(convert: RowConverter, header: CsvRow, rows: seq<CsvRow>): seq<CsvRow> {
    if rows == [] then []
    else (if rows[0] == [] then []
          else match convert(header, rows[0]) case None => [] case Some(r) => [r])
         + Import(convert, header, rows[1..])
  }

  /** `_advance`. */
  function Advance(p: Position, consumed: string): Position {
    p.(offset := p.offset + |consumed|,
       head := if |p.head| < WINDOW then First(p.head + consumed) else p.head,
       tail := Last(p.tail + consumed))
  }

  datatype Reset = Shrunk | Replaced | Rewritten

  predicate Sane(p: Position) {
    |p.head| <= WINDOW && |p.tail| <= WINDOW && |p.tail| <= p.offset
  }

  function ReadAt(file: string, start: int, size: nat): string
    requires start >= 0
  {
    if start >= |file| then "" else if start + size <= |file| then file[start..start + size] else file[start..]
  }

  /** `_tail_reset_reason`. */
  function ResetReason(file: string, p: Position): Option<Reset>
    requires Sane(p)
  {
    if p.offset == 0 then None
    else if |file| < p.offset then Some(Shrunk)
    else if p.head != "" && ReadAt(file, 0, |p.head|) != p.head then Some(Replaced)
    else if p.tail != "" && ReadAt(file, p.offset - |p.tail|, |p.tail|) != p.tail then Some(Rewritten)
    else None
  }

  /** The windows of a position are the first and last bytes before it. */
  ghost predicate Windows(file: string, p: Position) {
    p.offset <= |file| && p.head == First(file[..p.offset]) && p.tail == Last(file[..p.offset])
  }

  function Start(file: string, p: Position): Position
    requires Sane(p)
  {
    if ResetReason(file, p).Some? then BEGINNING else p
  }

  /** What one successful poll does, from a position that is still good for `file`. */
  function Reads(convert: RowConverter, p: Position, db: Committed, file: string): (r: (Position, Committed))
    requires p.offset <= |file|
  {
    var left := file[p.offset..];
    var rows, n := Records(left), Consumed(left);
    var unread := p.offset == 0 && p.header.None?;
    var header := if unread && rows != [] then Some(rows[0]) else p.header;
    var data := if unread && rows != [] then rows[1..] else rows;
    var q := Advance(p.(header := header), left[..n]);
    (q, Committed(db.rows + (if header.Some? then Import(convert, header.value, data) else []),
                 if n > 0 then Some(Cursor(q.offset, q.head, q.tail)) else db.saved))
  }

  function Poll(convert: RowConverter, p: Position, db: Committed, file: string): (Position, Committed)
    requires Sane(p)
  {
    var q := Start(file, p);
    if |file| <= q.offset then (q, db) else Reads(convert, q, db, file)
  }

  // ------------------------------------------------------------------------- windows

  lemma {:induction false} LastOfGrown(s: string, a: string)
    ensures Last(Last(s) + a) == Last(s + a)
  {
    if |s| > WINDOW {
      var k := |s| - WINDOW;
      assert (s + a)[k..] == s[k..] + a;
      assert (s + a)[k..][|a|..] == (s + a)[k + |a|..];
    }
  }

  lemma {:induction false} FirstOfGrown(s: string, a: string)
    ensures (if |First(s)| < WINDOW then First(First(s) + a) else First(s)) == First(s + a)
  {
  }

  /** Advancing twice is advancing once by both. */
  lemma {:induction false} AdvanceTwice(p: Position, a: string, b: string)
    ensures Advance(Advance(p, a), b) == Advance(p, a + b)
  {
    assert p.tail + (a + b) == p.tail + a + b;
    assert p.head + (a + b) == p.head + a + b;
    LastOfGrown(p.tail + a, b);
    if |p.head| < WINDOW {
      FirstOfGrown(p.head + a, b);
    }
  }

  /** Advancing over the bytes that follow keeps the windows right. */
  lemma {:induction false} AdvanceKeepsWindows(file: string, p: Position, n: nat)
    requires Windows(file, p) && p.offset + n <= |file|
    ensures Windows(file, Advance(p, file[p.offset..p.offset + n]))
  {
    var before := file[..p.offset];
    var step := file[p.offset..p.offset + n];
    var q := Advance(p, step);
    assert file[..p.offset + n] == before + step;
    assert q.tail == Last(before + step) by {
      LastOfGrown(before, step);
    }
    assert q.head == First(before + step) by {
      FirstOfGrown(before, step);
    }
  }

  /** A byte that the windows cover. */
  predicate Watched(p: Position, i: nat) {
    i < p.offset && (i < 4096 || p.offset - 4096 <= i)
  }

  /**
   A re-read from the start is triggered exactly when the file became shorter than the
   position or a watched byte changed; growth alone never does it.
   */
  lemma {:induction false} ResetExactly(was: string, now: string, p: Position)
    requires Windows(was, p)
    ensures Sane(p)
    ensures ResetReason(now, p).None? <==>
      p.offset == 0 || (p.offset <= |now| && forall i: nat :: Watched(p, i) ==> now[i] == was[i])
  {
    var o := p.offset;
    if o > 0 && o <= |now| {
      var h, t := |p.head|, |p.tail|;
      assert h == t == if o < WINDOW then o else WINDOW;
      SameBytes(was, now, 0, h);
      SameBytes(was, now, o - t, o);
      WatchedAre(p, h);
    }
  }

  lemma {:induction false} WatchedAre(p: Position, h: nat)
    requires h == if p.offset < WINDOW then p.offset else WINDOW
    ensures forall i: nat :: Watched(p, i) <==> (0 <= i < h || p.offset - h <= i < p.offset)
  {
  }

  lemma {:induction false} SameBytes(was: string, now: string, i: nat, j: nat)
    requires i <= j <= |was| && j <= |now|
    ensures (ReadAt(now, i, j - i) == was[i..j]) <==> forall k: nat :: i <= k < j ==> now[k] == was[k]
  {
    if now[i..j] == was[i..j] {
      forall k: nat | i <= k < j ensures now[k] == was[k] {
        assert now[i..j][k - i] == was[i..j][k - i];
      }
    }
  }

  // ------------------------------------------------------------- importing in parts

  lemma {:induction false} ImportConcat(convert: RowConverter, header: CsvRow, a: seq<CsvRow>, b: seq<CsvRow>)
    ensures Import(convert, header, a + b) == Import(convert, header, a) + Import(convert, header, b)
  {
    if a == [] {
      assert a + b == b;
    } else {
      assert (a + b)[1..] == a[1..] + b;
      ImportConcat(convert, header, a[1..], b);
    }
  }

  /** Only the non-empty rows matter. */
  lemma {:induction false} ImportSkipsEmpty(convert: RowConverter, header: CsvRow, rows: seq<CsvRow>)
    ensures Import(convert, header, rows) == Import(convert, header, NonEmpty(rows))
  {
    if rows != [] {
      ImportSkipsEmpty(convert, header, rows[1..]);
      if rows[0] == [] {
        assert NonEmpty(rows) == NonEmpty(rows[1..]);
      } else {
        assert NonEmpty(rows)[1..] == NonEmpty(rows[1..]);
      }
    }
  }

  /** Rows of a text read in two parts, once the header is known. */
  lemma {:induction false} ImportInParts(convert: RowConverter, header: CsvRow, s: string, t: string)
    ensures Import(convert, header, Records(s + t))
         == Import(convert, header, Records(s)) + Import(convert, header, Records((s + t)[Consumed(s)..]))
  {
    ReadingInParts(s, t);
    var rest := Records((s + t)[Consumed(s)..]);
    ImportSkipsEmpty(convert, header, Records(s + t));
    ImportSkipsEmpty(convert, header, Records(s));
    ImportSkipsEmpty(convert, header, rest);
    ImportConcat(convert, header, NonEmpty(Records(s)), NonEmpty(rest));
  }

  /** The same when the first part begins with the header. */
  lemma {:induction false} ImportBehindHeader(convert: RowConverter, s: string, t: string)
    requires Consumed(s) > 0
    ensures Records(s + t) != [] && Records(s) != [] && Records(s + t)[0] == Records(s)[0]
    ensures var h := Records(s)[0];
      Import(convert, h, Records(s + t)[1..])
        == Import(convert, h, Records(s)[1..]) + Import(convert, h, Records((s + t)[Consumed(s)..]))
  {
    DataInParts(s, t);
    var h := Records(s)[0];
    var rest := Records((s + t)[Consumed(s)..]);
    ImportSkipsEmpty(convert, h, Records(s + t)[1..]);
    ImportSkipsEmpty(convert, h, Records(s)[1..]);
    ImportSkipsEmpty(convert, h, rest);
    ImportConcat(convert, h, NonEmpty(Records(s)[1..]), NonEmpty(rest));
  }

  // ------------------------------------------------------------ what a poll comes down to

  /**
   `rows` are the conversions of rows of `data`, in their order and each once: every row that
   is not empty and can be converted, and nothing else; `at` is where they are.
   */
  predicate EachOnce(convert: RowConverter, header: CsvRow, data: seq<CsvRow>, rows: seq<CsvRow>, at: seq<nat>) {
    && |at| == |rows| && Increasing(at)
    && (forall i :: 0 <= i < |at| ==>
          at[i] < |data| && data[at[i]] != [] && convert(header, data[at[i]]) == Some(rows[i]))
    && (forall k :: 0 <= k < |data| && data[k] != [] && convert(header, data[k]).Some? ==> k in at)
  }

  lemma {:induction false} ImportsEachOnce(convert: RowConverter, header: CsvRow, data: seq<CsvRow>)
    ensures AddsEachOnce(convert, header, data, Import(convert, header, data))
  {
    var f := (row: CsvRow) => if row == [] then None else convert(header, row);
    var at := ImportPicks(convert, header, data, f);
    assert EachOnce(convert, header, data, Import(convert, header, data), at);
  }

  lemma {:induction false} ImportPicks(convert: RowConverter, header: CsvRow, data: seq<CsvRow>,
                                       f: CsvRow -> Option<CsvRow>) returns (at: seq<nat>)
    requires forall row :: f(row) == if row == [] then None else convert(header, row)
    ensures Picked(f, data, Import(convert, header, data), at)
  {
    hide Picked;
    if data == [] {
      at := [];
      PickedOne(f, []);
    } else {
      var rest := ImportPicks(convert, header, data[1..], f);
      PickedOne(f, data[0]);
      var first, place := if f(data[0]).Some? then [f(data[0]).value] else [], if f(data[0]).Some? then [0] else [];
      PickedBoth(f, [data[0]], first, place, data[1..], Import(convert, header, data[1..]), rest);
      assert [data[0]] + data[1..] == data;
      at := place + Shifted(rest, 1);
    }
  }

  /** The bytes kept from `start` on are still there. */
  predicate AllKept(file: string, start: nat, kept: string) {
    forall i :: 0 <= i < |kept| ==> Kept(file, start, kept, i)
  }

  predicate Kept(file: string, start: nat, kept: string, i: nat)
    requires i < |kept|
  {
    start + i < |file| && file[start + i] == kept[i]
  }

  /** The file is shorter than the position, or one of the bytes kept with it is not there. */
  predicate Differs(file: string, p: Position)
    requires Sane(p)
  {
    p.offset > 0 &&
    (|file| < p.offset || !AllKept(file, 0, p.head) || !AllKept(file, p.offset - |p.tail|, p.tail))
  }

  lemma {:induction false} ReasonIffDiffers(file: string, p: Position)
    requires Sane(p)
    ensures ResetReason(file, p).Some? <==> Differs(file, p)
  {
    hide AllKept;
    if p.offset > 0 && |file| >= p.offset {
      ReadsBack(file, 0, p.head);
      ReadsBack(file, p.offset - |p.tail|, p.tail);
    }
  }

  lemma {:induction false} ReadsBack(file: string, start: nat, kept: string)
    requires start <= |file|
    ensures ReadAt(file, start, |kept|) == kept <==> AllKept(file, start, kept)
  {
    var back := ReadAt(file, start, |kept|);
    if back == kept {
      forall i | 0 <= i < |kept| ensures Kept(file, start, kept, i) {
        assert back[i] == kept[i];
      }
    } else if start + |kept| <= |file| {
      var i :| 0 <= i < |kept| && back[i] != kept[i];
      assert !Kept(file, start, kept, i);
    } else {
      assert !Kept(file, start, kept, |kept| - 1);
    }
  }

  /** For a position taken from `was`: something was cut off, or a watched byte changed. */
  lemma {:induction false} DiffersIff(was: string, now: string, p: Position)
    requires Windows(was, p)
    ensures Sane(p)
    ensures Differs(now, p) <==>
      p.offset > 0 && (p.offset > |now| || exists i: nat :: Watched(p, i) && now[i] != was[i])
  {
    ResetExactly(was, now, p);
    ReasonIffDiffers(now, p);
  }

  /**
   A poll reads on from its position, or from the start of a file that differs: it ends
   behind the last whole record, and adds the rows from there on, each once.
   */
  ghost predicate ReadsOn(convert: RowConverter, file: string, from: Position, q: Position, added: seq<CsvRow>) {
    && from.offset <= |file|
    && var left := Records(file[from.offset..]);
       var isNew := from.offset == 0 && from.header.None? && left != [];
       && q.offset == from.offset + Consumed(file[from.offset..])
       && q.header == (if isNew then Some(left[0]) else from.header)
       && (Windows(file, from) ==> Windows(file, q))
       && (q.header.None? ==> added == [])
       && (q.header.Some? ==> AddsEachOnce(convert, q.header.value, if isNew then left[1..] else left, added))
  }

  ghost predicate AddsEachOnce(convert: RowConverter, header: CsvRow, data: seq<CsvRow>, rows: seq<CsvRow>) {
    exists at :: EachOnce(convert, header, data, rows, at)
  }

  lemma {:induction false} PollReadsOn(convert: RowConverter, p: Position, db: Committed, file: string)
    requires Sane(p)
    ensures var (q, d) := Poll(convert, p, db, file);
      var from := if Differs(file, p) then Position(0, None, "", "") else p;
      && |db.rows| <= |d.rows| && d.rows[..|db.rows|] == db.rows
      && ReadsOn(convert, file, from, q, d.rows[|db.rows|..])
      && d.saved == (if q.offset == from.offset then db.saved else Some(Cursor(q.offset, q.head, q.tail)))
  {
    hide Records, Consumed, Import, EachOnce, First, Last, ResetReason, Differs;
    ReasonIffDiffers(file, p);
    var from := Start(file, p);
    if !Differs(file, p) {
      NotBeyond(file, p);
    }
    var left := file[from.offset..];
    Nothing();
    var (q, d) := Poll(convert, p, db, file);
    if |file| > from.offset {
      ReadsEachOnce(convert, from, db, file);
    } else {
      assert left == "";
      if from.header.Some? {
        ImportsEachOnce(convert, from.header.value, []);
        NothingImported(convert, from.header.value);
      }
      assert d.rows[|db.rows|..] == [];
    }
  }

  lemma {:induction false} PollStaysSane(convert: RowConverter, p: Position, db: Committed, file: string)
    requires Sane(p)
    ensures Sane(Poll(convert, p, db, file).0)
  {
    hide Records, Consumed, Import, ResetReason;
  }

  lemma {:induction false} NotBeyond(file: string, p: Position)
    requires Sane(p) && !Differs(file, p)
    ensures p.offset <= |file|
  {
  }

  lemma {:induction false} NothingImported(convert: RowConverter, header: CsvRow)
    ensures Import(convert, header, []) == []
  {
  }

  lemma {:induction false} ReadsEachOnce(convert: RowConverter, p: Position, db: Committed, file: string)
    requires p.offset <= |file|
    ensures var (q, d) := Reads(convert, p, db, file);
      && |db.rows| <= |d.rows| && d.rows[..|db.rows|] == db.rows
      && ReadsOn(convert, file, p, q, d.rows[|db.rows|..])
      && d.saved == (if q.offset == p.offset then db.saved else Some(Cursor(q.offset, q.head, q.tail)))
  {
    hide Records, Consumed, Import, EachOnce, First, Last;
    var (q, d) := Reads(convert, p, db, file);
    var left := Records(file[p.offset..]);
    var isNew := p.offset == 0 && p.header.None? && left != [];
    var n := Consumed(file[p.offset..]);
    if q.header.Some? {
      var data := if isNew then left[1..] else left;
      ImportsEachOnce(convert, q.header.value, data);
      assert d.rows[|db.rows|..] == Import(convert, q.header.value, data);
    } else {
      assert d.rows[|db.rows|..] == [];
    }
    if Windows(file, p) {
      assert file[p.offset..p.offset + n] == file[p.offset..][..n];
      AdvanceKeepsWindows(file, p.(header := q.header), n);
    }
  }

  // -------------------------------------------------------------------- the importer

  function Concat(parts: seq<string>): string {
    if parts == [] then "" else parts[0] + Concat(parts[1..])
  }

  /** The tailing importer with its in-memory position and the database it writes to. */
  class Importer {
    const convert: RowConverter
    var position: Position
    var rows: seq<CsvRow>
    var saved: Option<Cursor>

    ghost function Db(): Committed
      reads this
    {
      Committed(rows, saved)
    }

    constructor (convert: RowConverter)
      ensures position == BEGINNING && Db() == Committed([], None) && this.convert == convert
    {
      this.convert := convert;
      position, rows, saved := BEGINNING, [], None;
    }

    /**
     `tail_append`.  `blocks` are the blocks the file handle returns from the position to
     the end of the file, of any sizes; `commits` says whether the transaction goes
     through.  A failed one leaves everything as it was, except that a re-read from the
     start stays decided.
     */
    method TailAppend(file: string, blocks: seq<string>, commits: bool) returns (inserted: nat)
      requires Sane(position)
      requires Concat(blocks) == file[if Differs(file, position) then 0 else position.offset..]
      requires forall i :: 0 <= i < |blocks| ==> blocks[i] != ""
      modifies this
      ensures commits ==> (position, Db()) == Poll(convert, old(position), old(Db()), file)
      ensures !commits ==> position == Start(file, old(position)) && Db() == old(Db())
      ensures inserted == |rows| - |old(rows)| && Sane(position)
      ensures commits ==>
        var from := if Differs(file, old(position)) then Position(0, None, "", "") else old(position);
        && |old(rows)| <= |rows| && rows[..|old(rows)|] == old(rows)
        && ReadsOn(convert, file, from, position, rows[|old(rows)|..])
        && saved == (if position.offset == from.offset then old(saved)
                     else Some(Cursor(position.offset, position.head, position.tail)))
      ensures !commits ==>
        && rows == old(rows) && saved == old(saved)
        && position == if Differs(file, old(position)) then Position(0, None, "", "") else old(position)
    {
      hide Differs, ReadsOn, Records, Consumed, ResetReason, Reads, Concat;
      ReasonIffDiffers(file, position);
      if !Differs(file, position) {
        NotBeyond(file, position);
      }
      PollReadsOn(convert, position, Db(), file);
      PollStaysSane(convert, position, Db(), file);
      if ResetReason(file, position).Some? {
        position := BEGINNING;
      }
      if |file| <= position.offset {
        return 0;
      }
      var work, added := ReadBlocks(file, blocks);
      if !commits {
        return 0;
      }
      rows := rows + added;
      if work.offset != position.offset {
        saved := Some(Cursor(work.offset, work.head, work.tail));
      }
      position := work;
      inserted := |added|;
    }

    /** The loop of `tail_append`: a working copy of the position, and the rows to insert. */
    method ReadBlocks(file: string, blocks: seq<string>) returns (work: Position, added: seq<CsvRow>)
      requires Sane(position) && position.offset <= |file| && Concat(blocks) == file[position.offset..]
      requires forall i :: 0 <= i < |blocks| ==> blocks[i] != ""
      ensures work == Reads(convert, position, Db(), file).0
      ensures rows + added == Reads(convert, position, Db(), file).1.rows
      ensures work.offset == position.offset + Consumed(file[position.offset..])
      ensures ReadsOn(convert, file, position, work, added)
    {
      hide Records, Consumed, Import, FirstRecord, Advance, LoopInv, Reads, Concat, Stepped, Pending, ReadsOn;
      work, added := position, [];
      var carry := "";
      ghost var all := file[position.offset..];
      ghost var d: nat := 0;
      LoopStarts(convert, position, blocks, all);
      var i := 0;
      while i <= |blocks|
        invariant 0 <= i <= |blocks| + 1 && d <= |all|
        invariant Pending(blocks, i, carry, all[d..])
        invariant i > |blocks| ==> Consumed(all[d..]) == 0 && Records(all[d..]) == []
        invariant LoopInv(convert, position, all, work, added, d)
      {
        // The read behind the last block returns nothing and ends the loop.
        var block := if i < |blocks| then blocks[i] else "";
        var data := carry + block;
        ghost var more := NextBlock(blocks, i, carry, block, all, d);
        var consumed: nat;
        LoopStep(convert, position, all, work, added, d, data, more);
        work, added, consumed := ReadBlock(work, added, data);
        KeepRest(blocks, i, data, more, all, d, consumed);
        carry := data[consumed..];
        if i == |blocks| {
          LoopDone(all, d + consumed, data, d);
        }
        d := d + consumed;
        i := i + 1;
      }
      LoopEnds(convert, position, file, Db(), work, added, d);
      ReadsEachOnce(convert, position, Db(), file);
      assert (rows + added)[|rows|..] == added;
    }

    /** One round of the loop: import the whole records of `data` and advance over them. */
    method ReadBlock(work: Position, added: seq<CsvRow>, data: string)
      returns (work': Position, added': seq<CsvRow>, consumed: nat)
      ensures consumed == Consumed(data)
      ensures (work', added') ==
        if consumed > 0 then Stepped(convert, work, added, Records(data), data[..consumed]) else (work, added)
    {
      work', added' := work, added;
      var cut := CsvTail.Cut(data);
      CsvTail.CutIsLast(data);
      CsvTail.CutKeepsRecords(data);
      var got: seq<CsvRow>;
      got, consumed := [], 0;
      if cut > 0 {
        got, consumed := CsvTail.ParseComplete(data[..cut]);
      } else {
        assert data[..cut] == "";
        Nothing();
      }
      if consumed > 0 {
        HeadOfConsumed(data);
        var rows := got;
        if work'.offset == 0 && work'.header.None? {
          work' := work'.(header := Some(got[0]));
          rows := got[1..];
        }
        assert added + [] == added;
        if work'.header.Some? {
          added' := added' + Import(convert, work'.header.value, rows);
        }
        work' := Advance(work', data[..consumed]);
      }
    }
  }

  /** What the loop carries over and has yet to read is `left`. */
  ghost predicate Pending(blocks: seq<string>, i: nat, carry: string, left: string) {
    carry + (if i <= |blocks| then Concat(blocks[i..]) else "") == left
  }

  lemma {:induction false} NextBlock(blocks: seq<string>, i: nat, carry: string, block: string, all: string, d: nat)
    returns (more: string)
    requires i <= |blocks| && d <= |all| && Pending(blocks, i, carry, all[d..])
    requires block == (if i < |blocks| then blocks[i] else "")
    ensures carry + block + more == all[d..]
    ensures more == (if i < |blocks| then Concat(blocks[i + 1..]) else "")
  {
    more := if i < |blocks| then Concat(blocks[i + 1..]) else "";
    if i < |blocks| {
      assert blocks[i..][1..] == blocks[i + 1..];
    }
    assert carry + (block + more) == carry + block + more;
  }

  lemma {:induction false} KeepRest(blocks: seq<string>, i: nat, data: string, more: string, all: string, d: nat,
                                    n: nat)
    requires i <= |blocks| && n <= |data| && d + n <= |all| && data + more == all[d..]
    requires more == (if i < |blocks| then Concat(blocks[i + 1..]) else "")
    ensures Pending(blocks, i + 1, data[n..], all[d + n..])
    ensures i == |blocks| ==> all[d..] == data
  {
    hide Concat;
    assert all[d + n..] == all[d..][n..];
    assert (data + more)[n..] == data[n..] + more;
  }

  lemma {:induction false} HeadOfConsumed(data: string)
    requires Consumed(data) > 0
    ensures Records(data) != []
  {
  }

  lemma {:induction false} Nothing()
    ensures Records("") == [] && Consumed("") == 0
  {
  }

  /** The header that holds for what follows, and the rows that are data. */
  function HeaderOf(p: Position, rows: seq<CsvRow>): Option<CsvRow> {
    if p.offset == 0 && p.header.None? && rows != [] then Some(rows[0]) else p.header
  }

  function DataOf(p: Position, rows: seq<CsvRow>): seq<CsvRow> {
    if p.offset == 0 && p.header.None? && rows != [] then rows[1..] else rows
  }

  function Imported(convert: RowConverter, header: Option<CsvRow>, rows: seq<CsvRow>): seq<CsvRow> {
    if header.Some? then Import(convert, header.value, rows) else []
  }

  /** After `d` bytes of `all`: what is added so far and what is left make the whole. */
  ghost predicate LoopInv(convert: RowConverter, p: Position, all: string, work: Position, added: seq<CsvRow>, d: nat) {
    && d <= |all|
    && d + Consumed(all[d..]) == Consumed(all)
    && work == Advance(p.(header := if d == 0 then p.header else HeaderOf(p, Records(all))), all[..d])
    && (d == 0 ==> added == [])
    && (d > 0 ==> Records(all) != [])
    && (d > 0 ==>
          added + Imported(convert, HeaderOf(p, Records(all)), Records(all[d..]))
             == Imported(convert, HeaderOf(p, Records(all)), DataOf(p, Records(all))))
  }

  lemma {:induction false} LoopStarts(convert: RowConverter, p: Position, blocks: seq<string>, all: string)
    requires Sane(p) && Concat(blocks) == all
    ensures LoopInv(convert, p, all, p, [], 0) && Pending(blocks, 0, "", all[0..])
  {
    assert blocks[0..] == blocks && all[0..] == all && all[..0] == "" && p.head + "" == p.head && p.tail + "" == p.tail;
  }

  /** What the loop makes of a block that holds whole records. */
  function Stepped(convert: RowConverter, work: Position, added: seq<CsvRow>, got: seq<CsvRow>,
                   consumed: string): (Position, seq<CsvRow>)
  {
    var header := HeaderOf(work, got);
    (Advance(work.(header := header), consumed), added + Imported(convert, header, DataOf(work, got)))
  }

  lemma {:induction false} LoopStep(convert: RowConverter, p: Position, all: string, work: Position,
                                    added: seq<CsvRow>, d: nat,
                 data: string, more: string)
    requires LoopInv(convert, p, all, work, added, d) && data + more == all[d..]
    ensures var n := Consumed(data);
      var (work', added') := if n > 0 then Stepped(convert, work, added, Records(data), data[..n]) else (work, added);
      d + n <= |all| && LoopInv(convert, p, all, work', added', d + n)
  {
    if Consumed(data) > 0 {
      if d == 0 {
        assert all[d..] == all;
        FirstStep(convert, p, data, more, work, added);
      } else {
        LaterStep(convert, p, all, work, added, d, data, more);
      }
    }
  }

  /** The first records of the text: the header is among them if it is not known yet. */
  lemma {:induction false} FirstStep(convert: RowConverter, p: Position, data: string, more: string, work: Position,
                                     added: seq<CsvRow>)
    requires Consumed(data) > 0 && added == [] && work == Advance(p, "")
    ensures var n := Consumed(data);
      var (work', added') := Stepped(convert, work, added, Records(data), data[..n]);
      LoopInv(convert, p, data + more, work', added', n)
  {
    hide Records, Consumed, Import, FirstRecord, NonEmpty;
    var n := Consumed(data);
    var all := data + more;
    assert n + Consumed(all[n..]) == Consumed(all) by {
      ReadingInParts(data, more);
    }
    assert Records(all) != [] && Records(data) != [] && Records(all)[0] == Records(data)[0] by {
      DataInParts(data, more);
    }
    var header := HeaderOf(p, Records(all));
    assert Advance(Advance(p.(header := header), ""), data[..n]) == Advance(p.(header := header), all[..n]) by {
      AdvanceTwice(p.(header := header), "", data[..n]);
      assert "" + data[..n] == data[..n] == all[..n];
    }
    FirstImport(convert, p, data, more);
  }

  lemma {:induction false} FirstImport(convert: RowConverter, p: Position, data: string, more: string)
    requires Consumed(data) > 0
    ensures var all := data + more;
      var header := HeaderOf(p, Records(all));
      [] + Imported(convert, HeaderOf(p, Records(data)), DataOf(p, Records(data)))
         + Imported(convert, header, Records(all[Consumed(data)..]))
      == Imported(convert, header, DataOf(p, Records(all)))
  {
    hide Records, Consumed, Import, FirstRecord, NonEmpty;
    if p.offset == 0 && p.header.None? {
      ImportBehindHeader(convert, data, more);
    } else if p.header.Some? {
      ImportInParts(convert, p.header.value, data, more);
    }
  }

  lemma {:induction false} LaterStep(convert: RowConverter, p: Position, all: string, work: Position,
                                     added: seq<CsvRow>, d: nat,
                  data: string, more: string)
    requires d > 0 && LoopInv(convert, p, all, work, added, d) && data + more == all[d..] && Consumed(data) > 0
    ensures var n := Consumed(data);
      var (work', added') := Stepped(convert, work, added, Records(data), data[..n]);
      d + n <= |all| && LoopInv(convert, p, all, work', added', d + n)
  {
    hide Records, Consumed, Import, FirstRecord;
    var n := Consumed(data);
    var left := all[d..];
    ReadingInParts(data, more);
    assert left[n..] == all[d + n..];
    assert all[..d + n] == all[..d] + data[..n];
    var header := HeaderOf(p, Records(all));
    AdvanceTwice(p.(header := header), all[..d], data[..n]);
    if header.Some? {
      var now := Import(convert, header.value, Records(data));
      var later := Import(convert, header.value, Records(left[n..]));
      ImportInParts(convert, header.value, data, more);
      assert added + now + later == added + (now + later);
    }
  }

  lemma {:induction false} LoopDone(all: string, end: nat, data: string, d: nat)
    requires d <= |all| && all[d..] == data && end == d + Consumed(data)
    ensures Consumed(all[end..]) == 0 && Records(all[end..]) == []
  {
    NothingLeft(data);
    assert all[end..] == data[Consumed(data)..];
  }

  lemma {:induction false} LoopEnds(convert: RowConverter, p: Position, file: string, db: Committed, work: Position,
                                    added: seq<CsvRow>, d: nat)
    requires p.offset <= |file|
    requires LoopInv(convert, p, file[p.offset..], work, added, d)
    requires Consumed(file[p.offset..][d..]) == 0 && Records(file[p.offset..][d..]) == []
    ensures work == Reads(convert, p, db, file).0
    ensures db.rows + added == Reads(convert, p, db, file).1.rows
    ensures work.offset == p.offset + Consumed(file[p.offset..])
  {
    hide Records, Consumed, FirstRecord;
    var all := file[p.offset..];
    if d == 0 {
      assert all[0..] == all;
    }
  }
}
