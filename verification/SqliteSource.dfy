/**
 Any number of processes importing one SQLite table by its watermark column
 (`SqliteSourceConnector` in monitor_app/services/connectors.py), in append mode.

 A poll reads the cursor, fetches the rows with a larger watermark, and writes their
 conversions together with the largest watermark, if the cursor is still the one it read.
 Rows without a watermark are never fetched.  `EachRowOnce` holds for a table whose
 watermarks grow; processes may begin, fetch, write and crash in any order.
 */
module SqliteSource {
  import opened Options
  import opened SourceStore

  /** A row of the source; a null watermark cannot be followed. */
  datatype SourceRow = SourceRow(watermark: Option<int>, raw: RawRecord)

  type Pid = int

  predicate Wanted(r: SourceRow, after: Option<int>) {
    r.watermark.Some? && (after.None? || r.watermark.value > after.value)
  }

  /** `SELECT ... WHERE wm IS NOT NULL AND (:wm IS NULL OR wm > :wm)`. */
  function Selected(source: seq<SourceRow>, after: Option<int>): (r: seq<SourceRow>)
    ensures forall i :: 0 <= i < |r| ==> Wanted(r[i], after)
  {
    if source == [] then []
    else
      var last := source[|source| - 1];
      Selected(source[..|source| - 1], after) + if Wanted(last, after) then [last] else []
  }

  /** The rows up to a cursor. */
  function UpTo(source: seq<SourceRow>, cursor: Option<int>): seq<SourceRow> {
    if source == [] then []
    else
      var last := source[|source| - 1];
      UpTo(source[..|source| - 1], cursor)
      + if last.watermark.Some? && !Wanted(last, cursor) then [last] else []
  }

  function Raws(rows: seq<SourceRow>): (r: seq<RawRecord>)
    ensures |r| == |rows|
  {
    seq(|rows|, i requires 0 <= i < |rows| => rows[i].raw)
  }

  function Largest(rows: seq<SourceRow>): (m: int)
    requires rows != [] && forall i :: 0 <= i < |rows| ==> rows[i].watermark.Some?
    ensures forall i :: 0 <= i < |rows| ==> rows[i].watermark.value <= m
    ensures exists i :: 0 <= i < |rows| && rows[i].watermark.value == m
  {
    var last := rows[|rows| - 1].watermark.value;
    if |rows| == 1 then last
    else
      var before := Largest(rows[..|rows| - 1]);
      if before > last then before else last
  }

  /** One poll from start to end, when nobody interferes. */
  method Poll(db: Target<int>, convert: Converter, source: seq<SourceRow>, commits: bool) returns (inserted: nat)
    modifies db
    ensures commits ==>
      var rows := Selected(source, old(db.store.cursor));
      db.store == if rows == [] then old(db.store)
                  else Store(old(db.store.table) + Converted(convert, Raws(rows)), Some(Largest(rows)))
    ensures !commits ==> db.store == old(db.store)
    ensures inserted == |db.store.table| - |old(db.store.table)|
  {
    var saved := db.store.cursor;
    var rows := Selected(source, saved);
    if rows == [] {
      return 0;
    }
    inserted := db.Write(convert, Raws(rows), Largest(rows), saved, commits);
  }

  // ------------------------------------------------------------------------ all processes

  datatype Process = Idle | Begun(saved: Option<int>) | Fetched(saved: Option<int>, rows: seq<SourceRow>)

  datatype System = System(source: seq<SourceRow>, store: Store<int>, processes: map<Pid, Process>)

  datatype Event =
    | Append(row: SourceRow)
    | Begin(p: Pid)
    | Fetch(p: Pid)
    | Write(p: Pid, commits: bool)
    | Crash(p: Pid)

  function At(s: System, p: Pid): Process {
    if p in s.processes then s.processes[p] else Idle
  }

  /** The source only grows, and its watermarks strictly. */
  ghost predicate Grows(source: seq<SourceRow>, row: SourceRow) {
    row.watermark.Some? ==>
      forall i :: 0 <= i < |source| && source[i].watermark.Some? ==> source[i].watermark.value < row.watermark.value
  }

  ghost predicate Next(convert: Converter, s: System, e: Event, s': System) {
    match e
    case Append(row) => Grows(s.source, row) && s' == s.(source := s.source + [row])
    case Begin(p) => At(s, p).Idle? && s' == s.(processes := s.processes[p := Begun(s.store.cursor)])
    case Fetch(p) =>
      At(s, p).Begun? &&
      (var rows := Selected(s.source, At(s, p).saved);
       s' == s.(processes := s.processes[p := if rows == [] then Idle else Fetched(At(s, p).saved, rows)]))
    case Write(p, commits) =>
      At(s, p).Fetched? && At(s, p).rows != []
      && (forall i :: 0 <= i < |At(s, p).rows| ==> At(s, p).rows[i].watermark.Some?)
      && s' == s.(processes := s.processes[p := Idle],
                  store := if commits
                           then Written(s.store, Converted(convert, Raws(At(s, p).rows)), Largest(At(s, p).rows),
                                        At(s, p).saved)
                           else s.store)
    case Crash(p) => s' == s.(processes := s.processes[p := Idle])
  }

  ghost predicate Ordered(source: seq<SourceRow>) {
    forall i, j :: 0 <= i < j < |source| && source[i].watermark.Some? && source[j].watermark.Some? ==>
      source[i].watermark.value < source[j].watermark.value
  }

  /** What a process fetched is what the source held behind its cursor then, or is now a part of that. */
  ghost predicate FetchedOk(s: System, p: Pid) {
    At(s, p).Fetched? ==>
      && At(s, p).rows != []
      && (exists n :: 0 <= n <= |s.source| && At(s, p).rows == Selected(s.source[..n], At(s, p).saved))
  }

  ghost predicate Inv(convert: Converter, s: System) {
    && Ordered(s.source)
    && s.store.table == Converted(convert, Raws(if s.store.cursor.None? then [] else UpTo(s.source, s.store.cursor)))
    && (s.store.cursor.Some? ==> exists i :: 0 <= i < |s.source| && s.source[i].watermark == s.store.cursor)
    && forall p :: FetchedOk(s, p)
  }

  /** Up to the largest watermark fetched: what was done before, and what was fetched. */
  lemma {:induction false} UpToLargest(source: seq<SourceRow>, n: nat, saved: Option<int>)
    requires Ordered(source) && n <= |source| && Selected(source[..n], saved) != []
    ensures var rows := Selected(source[..n], saved);
      UpTo(source, Some(Largest(rows))) == (if saved.None? then [] else UpTo(source, saved)) + rows
    decreases |source|
  {
    hide UpTo, Selected, Largest;
    var rows := Selected(source[..n], saved);
    var m := Largest(rows);
    if n < |source| {
      var before, last := source[..|source| - 1], source[|source| - 1];
      assert before[..n] == source[..n];
      UpToLargest(before, n, saved);
      LargestIsThere(source, n, saved);
      LastRow(source, Some(m));
      LastRow(source, saved);
    } else {
      assert source[..n] == source;
      WholeSource(source, saved);
    }
  }

  lemma {:induction false} FromSource(source: seq<SourceRow>, after: Option<int>)
    ensures forall r :: r in Selected(source, after) ==> r in source
  {
    if source != [] {
      FromSource(source[..|source| - 1], after);
    }
  }

  lemma {:induction false} LargestIsThere(source: seq<SourceRow>, n: nat, saved: Option<int>)
    requires Ordered(source) && n < |source| && Selected(source[..n], saved) != []
    ensures var last := source[|source| - 1]; var m := Largest(Selected(source[..n], saved));
      last.watermark.Some? ==> m < last.watermark.value && (saved.Some? ==> saved.value < m)
  {
    var rows := Selected(source[..n], saved);
    FromSource(source[..n], saved);
    var i :| 0 <= i < |rows| && rows[i].watermark.value == Largest(rows);
    assert rows[i] in source[..n];
    var j :| 0 <= j < n && source[..n][j] == rows[i];
    assert source[j] == rows[i];
  }

  lemma {:induction false} SelectedHas(source: seq<SourceRow>, after: Option<int>, i: nat)
    requires i < |source| && Wanted(source[i], after)
    ensures source[i] in Selected(source, after)
  {
    if i < |source| - 1 {
      SelectedHas(source[..|source| - 1], after, i);
    }
  }

  lemma {:induction false} NothingBehind(source: seq<SourceRow>, saved: int)
    requires forall i :: 0 <= i < |source| ==> !Wanted(source[i], Some(saved))
    ensures Selected(source, Some(saved)) == []
  {
    if source != [] {
      NothingBehind(source[..|source| - 1], saved);
    }
  }

  lemma {:induction false} WholeSource(source: seq<SourceRow>, saved: Option<int>)
    requires Ordered(source) && Selected(source, saved) != []
    ensures var rows := Selected(source, saved);
      UpTo(source, Some(Largest(rows))) == (if saved.None? then [] else UpTo(source, saved)) + rows
  {
    var rows := Selected(source, saved);
    var m := Largest(rows);
    forall i | 0 <= i < |source| && Wanted(source[i], saved) ensures source[i].watermark.value <= m {
      SelectedHas(source, saved, i);
    }
    AllBelow(source, saved, m);
  }

  lemma {:induction false} NoRows(saved: Option<int>, m: int)
    ensures UpTo([], Some(m)) == [] && UpTo([], saved) == [] && Selected([], saved) == []
  {
  }

  lemma {:induction false} LastRow(source: seq<SourceRow>, c: Option<int>)
    requires source != []
    ensures var before, last := source[..|source| - 1], source[|source| - 1];
      && UpTo(source, c) == UpTo(before, c) + (if last.watermark.Some? && !Wanted(last, c) then [last] else [])
      && Selected(source, c) == Selected(before, c) + (if Wanted(last, c) then [last] else [])
  {
  }

  lemma {:induction false} AllBelow(source: seq<SourceRow>, saved: Option<int>, m: int)
    requires Ordered(source) && (saved.Some? ==> saved.value < m)
    requires forall i :: 0 <= i < |source| && Wanted(source[i], saved) ==> source[i].watermark.value <= m
    ensures UpTo(source, Some(m)) == (if saved.None? then [] else UpTo(source, saved)) + Selected(source, saved)
  {
    hide UpTo, Selected;
    if source == [] {
      NoRows(saved, m);
    } else {
      var before, last := source[..|source| - 1], source[|source| - 1];
      AllBelow(before, saved, m);
      LastRow(source, saved);
      LastRow(source, Some(m));
      var u, picked := if saved.None? then [] else UpTo(before, saved), Selected(before, saved);
      if Wanted(last, saved) {
      } else if last.watermark.Some? {
        NothingBehind(before, saved.value);
      }
    }
  }

  // ----------------------------------------------------------------------- every step

  lemma {:induction false} AppendKeeps(convert: Converter, s: System, row: SourceRow, s': System)
    requires Inv(convert, s) && Next(convert, s, Append(row), s')
    ensures Inv(convert, s')
  {
    if s.store.cursor.Some? {
      var i :| 0 <= i < |s.source| && s.source[i].watermark == s.store.cursor;
      assert s'.source[i] == s.source[i];
      assert UpTo(s.source + [row], Some(s.store.cursor.value)) == UpTo(s.source, Some(s.store.cursor.value));
    }
    forall p | At(s', p).Fetched? ensures FetchedOk(s', p) {
      assert FetchedOk(s, p) && At(s', p) == At(s, p);
      var n :| 0 <= n <= |s.source| && At(s, p).rows == Selected(s.source[..n], At(s, p).saved);
      assert s'.source[..n] == s.source[..n];
    }
  }

  lemma {:induction false} FetchKeeps(convert: Converter, s: System, p: Pid, s': System)
    requires Inv(convert, s) && Next(convert, s, Fetch(p), s')
    ensures Inv(convert, s')
  {
    assert s.source[..|s.source|] == s.source;
    forall q ensures FetchedOk(s', q) {
      assert FetchedOk(s, q);
    }
  }

  /** The heart of it: an unchanged cursor means that exactly the fetched rows are new. */
  lemma {:induction false} CommitAdds(convert: Converter, source: seq<SourceRow>, n: nat, saved: Option<int>)
    requires Ordered(source) && n <= |source| && Selected(source[..n], saved) != []
    ensures var rows := Selected(source[..n], saved);
      Converted(convert, Raws(if saved.None? then [] else UpTo(source, saved))) + Converted(convert, Raws(rows))
        == Converted(convert, Raws(UpTo(source, Some(Largest(rows)))))
  {
    hide Converted, Selected, UpTo, Largest;
    var rows := Selected(source[..n], saved);
    UpToLargest(source, n, saved);
    var before := if saved.None? then [] else UpTo(source, saved);
    assert Raws(before + rows) == Raws(before) + Raws(rows);
    ConvertedConcat(convert, Raws(before), Raws(rows));
  }

  lemma {:induction false} WriteKeeps(convert: Converter, s: System, p: Pid, commits: bool, s': System)
    requires Inv(convert, s) && Next(convert, s, Write(p, commits), s')
    ensures Inv(convert, s')
  {
    hide Converted, Selected, UpTo, Largest, Raws, Ordered;
    forall q ensures FetchedOk(s', q) {
      assert FetchedOk(s, q);
    }
    if commits && s.store.cursor == At(s, p).saved {
      assert FetchedOk(s, p);
      var saved := At(s, p).saved;
      var n :| 0 <= n <= |s.source| && At(s, p).rows == Selected(s.source[..n], saved);
      CommitAdds(convert, s.source, n, saved);
      LargestFrom(s.source, n, saved);
    }
  }

  lemma {:induction false} LargestFrom(source: seq<SourceRow>, n: nat, saved: Option<int>)
    requires n <= |source| && Selected(source[..n], saved) != []
    ensures var m := Largest(Selected(source[..n], saved));
      (saved.Some? ==> saved.value < m) && exists i :: 0 <= i < |source| && source[i].watermark == Some(m)
  {
    var rows := Selected(source[..n], saved);
    FromSource(source[..n], saved);
    var i :| 0 <= i < |rows| && rows[i].watermark.value == Largest(rows);
    assert rows[i] in source[..n];
    var j :| 0 <= j < n && source[..n][j] == rows[i];
    assert source[j].watermark == Some(Largest(rows));
  }

  predicate NotBefore(now: Option<int>, was: Option<int>) {
    was.Some? ==> now.Some? && now.value >= was.value
  }

  lemma {:induction false} NextKeeps(convert: Converter, s: System, e: Event, s': System)
    requires Inv(convert, s) && Next(convert, s, e, s')
    ensures Inv(convert, s') && NotBefore(s'.store.cursor, s.store.cursor)
  {
    match e
    case Append(row) => AppendKeeps(convert, s, row, s');
    case Begin(p) => OthersKeep(convert, s, p, s');
    case Fetch(p) => FetchKeeps(convert, s, p, s');
    case Write(p, commits) =>
      WriteKeeps(convert, s, p, commits, s');
      CursorGrows(convert, s, p, commits, s');
    case Crash(p) => OthersKeep(convert, s, p, s');
  }

  lemma {:induction false} OthersKeep(convert: Converter, s: System, p: Pid, s': System)
    requires Inv(convert, s) && s'.source == s.source && s'.store == s.store
    requires !At(s', p).Fetched? && s'.processes == s.processes[p := At(s', p)]
    ensures Inv(convert, s')
  {
    forall q ensures FetchedOk(s', q) {
      assert FetchedOk(s, q);
    }
  }

  lemma {:induction false} CursorGrows(convert: Converter, s: System, p: Pid, commits: bool, s': System)
    requires Inv(convert, s) && Next(convert, s, Write(p, commits), s')
    ensures NotBefore(s'.store.cursor, s.store.cursor)
  {
    assert FetchedOk(s, p);
    var n :| 0 <= n <= |s.source| && At(s, p).rows == Selected(s.source[..n], At(s, p).saved);
    LargestFrom(s.source, n, At(s, p).saved);
  }

  ghost predicate Run(convert: Converter, states: seq<System>, events: seq<Event>) {
    && |states| == |events| + 1
    && states[0] == System([], Store([], None), map[])
    && forall i :: 0 <= i < |events| ==> Next(convert, states[i], events[i], states[i + 1])
  }

  /** A row with a watermark up to the cursor that can be converted. */
  predicate Due(convert: Converter, row: SourceRow, cursor: Option<int>) {
    row.watermark.Some? && cursor.Some? && row.watermark.value <= cursor.value && convert(row.raw).Some?
  }

  /** The table holds these rows in their order, each once, and no others; `at` is where they are. */
  ghost predicate ImportedOnce(convert: Converter, source: seq<SourceRow>, cursor: Option<int>, table: seq<string>,
                               at: seq<nat>) {
    && |at| == |table| && Increasing(at)
    && (forall i :: 0 <= i < |at| ==>
          at[i] < |source| && Due(convert, source[at[i]], cursor) && convert(source[at[i]].raw) == Some(table[i]))
    && (forall k :: 0 <= k < |source| && Due(convert, source[k], cursor) ==> k in at)
  }

  /** What the last row of the source adds. */
  lemma {:induction false} UpToNext(convert: Converter, source: seq<SourceRow>, cursor: int)
    requires source != []
    ensures var last := source[|source| - 1];
      Converted(convert, Raws(UpTo(source, Some(cursor))))
        == Converted(convert, Raws(UpTo(source[..|source| - 1], Some(cursor))))
           + if Due(convert, last, Some(cursor)) then [convert(last.raw).value] else []
  {
    var last := source[|source| - 1];
    var sent := UpTo(source[..|source| - 1], Some(cursor));
    if last.watermark.Some? && last.watermark.value <= cursor {
      assert Raws(sent + [last]) == Raws(sent) + [last.raw];
      ConvertedConcat(convert, Raws(sent), [last.raw]);
      assert [last.raw][..0] == [];
    } else {
      assert sent + [] == sent;
    }
  }

  lemma {:induction false} UpToNothing(convert: Converter, cursor: int)
    ensures Converted(convert, Raws(UpTo([], Some(cursor)))) == []
  {
  }

  lemma {:induction false} UpToOnce(convert: Converter, source: seq<SourceRow>, cursor: int,
                                    f: SourceRow -> Option<string>) returns (at: seq<nat>)
    requires forall r :: f(r) == if Due(convert, r, Some(cursor)) then convert(r.raw) else None
    ensures Picked(f, source, Converted(convert, Raws(UpTo(source, Some(cursor)))), at)
  {
    hide Picked, Converted, Raws, UpTo;
    if source == [] {
      at := [];
      UpToNothing(convert, cursor);
      PickedOne(f, SourceRow(None, ""));
    } else {
      var before, last := source[..|source| - 1], source[|source| - 1];
      var places := UpToOnce(convert, before, cursor, f);
      PickedOne(f, last);
      var row, place := if f(last).Some? then [f(last).value] else [], if f(last).Some? then [0] else [];
      PickedBoth(f, before, Converted(convert, Raws(UpTo(before, Some(cursor)))), places, [last], row, place);
      assert before + [last] == source;
      UpToNext(convert, source, cursor);
      at := places + Shifted(place, |before|);
    }
  }

  lemma {:induction false} TableIsOnce(convert: Converter, source: seq<SourceRow>, cursor: Option<int>)
    returns (at: seq<nat>)
    ensures ImportedOnce(convert, source, cursor,
                         Converted(convert, Raws(if cursor.None? then [] else UpTo(source, cursor))), at)
  {
    if cursor.None? {
      at := [];
    } else {
      var f := (r: SourceRow) => if Due(convert, r, cursor) then convert(r.raw) else None;
      at := UpToOnce(convert, source, cursor.value, f);
    }
  }

  /**
   Main result: whatever the processes do, and wherever they crash, the table holds each
   row of the source with a watermark up to the cursor exactly once, in order, and no
   other; and the cursor never goes back.
   */
  lemma {:induction false} EachRowOnce(convert: Converter, states: seq<System>, events: seq<Event>, i: nat, j: nat)
    requires Run(convert, states, events) && i <= j < |states|
    ensures Inv(convert, states[j])
    ensures var s := states[j];
      s.store.table == Converted(convert, Raws(if s.store.cursor.None? then [] else UpTo(s.source, s.store.cursor)))
    ensures var s := states[j]; exists at :: ImportedOnce(convert, s.source, s.store.cursor, s.store.table, at)
    ensures NotBefore(states[j].store.cursor, states[i].store.cursor)
    decreases j
  {
    hide Next, ImportedOnce;
    var at := TableIsOnce(convert, states[j].source, states[j].store.cursor);
    if j == 0 {
      assert Inv(convert, states[0]);
    } else {
      EachRowOnce(convert, states, events, if i < j then i else j - 1, j - 1);
      NextKeeps(convert, states[j - 1], events[j - 1], states[j]);
    }
  }

  /** Once every row that can be followed has been polled, the table is the whole source. */
  lemma {:induction false} NothingMissed(source: seq<SourceRow>, cursor: int)
    requires Selected(source, Some(cursor)) == []
    ensures UpTo(source, Some(cursor)) == Selected(source, None)
  {
    if source != [] {
      NothingMissed(source[..|source| - 1], cursor);
    }
  }
}
