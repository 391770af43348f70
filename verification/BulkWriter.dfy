/**
 `insert_rows` and its writer (monitor_app/db/bulk.py), statement by statement, proved to
 do what the rows do one by one.

 The writer works on chunks.  An insert statement carries the columns of its first row, so
 each chunk is cut into runs of rows with the same columns; for `update` it either uses the
 database's upsert or updates first and inserts the rest.  The sequence that assigns
 keys is advanced after rows with explicit keys.
 */
module BulkWriter {
  import opened Options
  import opened BulkSpec
  import opened BulkPlan
  import opened BulkRaws

  /** How many keys one lookup asks for. */
  const LOOKUP_CHUNK := 500

  /** `ValueError` for a chunk below 1; an integrity error ends the caller's transaction. */
  datatype Outcome = Inserted(count: nat) | IntegrityError | ValueError

  /** From table `t` and log `log`, the database has done `rows` one by one. */
  ghost predicate Did(mode: OnConflict, t: Table, log: seq<int>, rows: seq<Row>, db: Db) {
    && |log| <= |db.log| && db.log[..|log|] == log
    && Unkeyed(rows) == |db.log[|log|..]|
    && Applies(mode, t, rows, db.log[|log|..])
    && db.table == Applied(mode, t, rows, db.log[|log|..])
  }

  /**
   From table `t` and log `log`, the first `n` rows were inserted: as many keys were given
   out as rows left theirs to the database, and the table holds what the rows say.
   */
  ghost predicate Stored(mode: OnConflict, t: Table, log: seq<int>, raws: seq<Raw>, n: nat, db: Db) {
    && n <= |raws| && |log| <= |db.log| && db.log[..|log|] == log
    && Keyless(raws, n) == |db.log| - |log|
    && Inserts(mode, t, raws, db.log[|log|..], n, db.table)
  }

  lemma {:induction false} DidStores(mode: OnConflict, t: Table, log: seq<int>, raws: seq<Raw>, n: nat, db: Db)
    requires n <= |raws| && Did(mode, t, log, Prepared(raws)[..n], db)
    ensures Stored(mode, t, log, raws, n, db)
  {
    hide Inserts, Applied, Applies, Unkeyed, Prepared;
    UnkeyedIsKeyless(raws, n);
    AppliedInserts(mode, t, raws, db.log[|log|..], n);
  }

  lemma {:induction false} AllStored(mode: OnConflict, t: Table, log: seq<int>, raws: seq<Raw>, db: Db)
    requires Did(mode, t, log, Prepared(raws), db)
    ensures Stored(mode, t, log, raws, |raws|, db)
  {
    hide Did, Stored, Prepared;
    assert Prepared(raws)[..|raws|] == Prepared(raws);
    DidStores(mode, t, log, raws, |raws|, db);
  }

  /** The first `n` rows were inserted, and the key of the next one is taken. */
  ghost predicate TakenAt(d: Dialect, t: Table, log: seq<int>, raws: seq<Raw>, n: nat, db: Db) {
    && n < |raws| && Stored(Error, t, log, raws, n, db)
    && (if raws[n].key.Given? then raws[n].key.key else FreeKey(d, db)) in db.table
  }

  lemma {:induction false} RefusedIsTaken(d: Dialect, t: Table, log: seq<int>, raws: seq<Raw>, n: nat, db: Db)
    requires Refused(d, Error, t, log, Prepared(raws), n, db)
    ensures TakenAt(d, t, log, raws, n, db)
  {
    hide Did, Stored, FreeKey;
    DidStores(Error, t, log, raws, n, db);
  }

  lemma {:induction false} DidNothing(mode: OnConflict, db: Db)
    ensures Did(mode, db.table, db.log, [], db)
  {
  }

  lemma {:induction false} DidBoth(mode: OnConflict, a: Db, rows: seq<Row>, b: Db, more: seq<Row>, c: Db)
    requires Did(mode, a.table, a.log, rows, b) && Did(mode, b.table, b.log, more, c)
    ensures Did(mode, a.table, a.log, rows + more, c)
  {
    hide Applied, Applies, Unkeyed;
    var forRows, forMore := b.log[|a.log|..], c.log[|b.log|..];
    InTwoParts(mode, a.table, rows, more, forRows, forMore);
    assert c.log == b.log + forMore;
    assert c.log[..|a.log|] == a.log;
    assert c.log[|a.log|..] == forRows + forMore;
  }

  function Joined(runs: seq<seq<Row>>): seq<Row> {
    if runs == [] then [] else Joined(runs[..|runs| - 1]) + runs[|runs| - 1]
  }

  /** Batches of equal columns, none of which could be joined with the next. */
  ghost predicate AreRuns(runs: seq<seq<Row>>) {
    && (forall i :: 0 <= i < |runs| ==> runs[i] != [] && Homogeneous(runs[i]))
    && (forall i :: 0 < i < |runs| ==> !SameColumns(runs[i][0], runs[i - 1][0]))
  }

  /** `_runs`. */
  method Runs(rows: seq<Row>) returns (runs: seq<seq<Row>>)
    ensures Joined(runs) == rows && AreRuns(runs)
  {
    hide RunsSoFar;
    runs := [];
    var run: seq<Row> := [];
    NoRunYet(rows);
    for i := 0 to |rows|
      invariant RunsSoFar(rows[..i], runs, run) && (run != [] <==> i > 0)
    {
      assert rows[..i + 1] == rows[..i] + [rows[i]];
      RunsFurther(rows[..i], runs, run, rows[i]);
      if run != [] && !SameColumns(rows[i], run[0]) {
        runs, run := runs + [run], [];
      }
      run := run + [rows[i]];
    }
    assert rows[..|rows|] == rows;
    RunsEnd(rows, runs, run);
    if run != [] {
      runs := runs + [run];
    }
  }

  /** `runs` are closed, `run` is the one being collected. */
  ghost predicate RunsSoFar(rows: seq<Row>, runs: seq<seq<Row>>, run: seq<Row>) {
    && Joined(runs) + run == rows && AreRuns(runs) && Homogeneous(run)
    && (runs != [] ==> run != [] && runs[|runs| - 1] != [] && !SameColumns(run[0], runs[|runs| - 1][0]))
  }

  lemma {:induction false} NoRunYet(rows: seq<Row>)
    ensures RunsSoFar(rows[..0], [], [])
  {
  }

  lemma {:induction false} Closed(runs: seq<seq<Row>>, run: seq<Row>)
    requires AreRuns(runs) && run != [] && Homogeneous(run)
    requires runs != [] ==> !SameColumns(run[0], runs[|runs| - 1][0])
    ensures AreRuns(runs + [run]) && Joined(runs + [run]) == Joined(runs) + run
  {
    assert (runs + [run])[..|runs|] == runs;
  }

  lemma {:induction false} RunsFurther(rows: seq<Row>, runs: seq<seq<Row>>, run: seq<Row>, r: Row)
    requires RunsSoFar(rows, runs, run)
    ensures if run != [] && !SameColumns(r, run[0]) then RunsSoFar(rows + [r], runs + [run], [] + [r])
            else RunsSoFar(rows + [r], runs, run + [r])
  {
    hide Joined, AreRuns;
    if run != [] && !SameColumns(r, run[0]) {
      Closed(runs, run);
      assert Joined(runs) + run + [r] == rows + [r];
    } else {
      assert Joined(runs) + (run + [r]) == rows + [r];
    }
  }

  lemma {:induction false} RunsEnd(rows: seq<Row>, runs: seq<seq<Row>>, run: seq<Row>)
    requires RunsSoFar(rows, runs, run)
    ensures var all := if run != [] then runs + [run] else runs; Joined(all) == rows && AreRuns(all)
  {
    if run != [] {
      Closed(runs, run);
    }
  }

  /** The statements the writer chooses from. */
  datatype Kind = Plain | Skipping | Overwriting

  function KindMode(kind: Kind): OnConflict {
    match kind case Plain => Error case Skipping => Ignore case Overwriting => Update
  }

  function StatementOf(kind: Kind, columns: set<string>): Statement {
    match kind
    case Plain => Insert(columns)
    case Skipping => InsertIgnore(columns)
    case Overwriting => Upsert(columns)
  }

  predicate Clean(mode: OnConflict, rows: seq<Row>) {
    !mode.Error? || forall i :: 0 <= i < |rows| ==> rows[i].key.None?
  }

  /** Whatever has become of the key sequence before, the account of it is kept. */
  ghost predicate Kept(d: Dialect, pending: bool, db: Db, after: bool, next: Db) {
    d.Postgres? ==> forall was, from ::
      Moved(was, from, pending, db.sequence, db.table) ==> Moved(was, from, after, next.sequence, next.table)
  }

  class Writer {
    const dialect: Dialect
    var db: Db
    var explicitSinceAdvance: bool

    constructor (dialect: Dialect, db: Db)
      ensures this.dialect == dialect && this.db == db && !explicitSinceAdvance
    {
      this.dialect, this.db, explicitSinceAdvance := dialect, db, false;
    }

    /** The sequence will be ahead of all keys before the database is asked for one. */
    ghost predicate KeysAreSafe()
      reads this
    {
      dialect.Postgres? && !explicitSinceAdvance ==> Ahead(db.sequence, db.table)
    }

    predicate SupportsUpsert() {
      !dialect.OldSqlite?
    }

    /** `finish`. */
    method Finish()
      modifies this
      ensures db.table == old(db.table) && db.log == old(db.log) && !explicitSinceAdvance
      ensures old(KeysAreSafe()) ==> KeysAreSafe()
      ensures Kept(dialect, old(explicitSinceAdvance), old(db), explicitSinceAdvance, db)
    {
      hide Moved, Advanced;
      if explicitSinceAdvance {
        Advancing(dialect, db);
        AdvancedIsAhead(db.sequence, db.table);
        if dialect.Postgres? {
          db := db.(sequence := Advanced(db.sequence, db.table));
        }
        explicitSinceAdvance := false;
      }
    }

    /** `conn.execute` with a list of rows: the database takes them one by one. */
    method Send(s: Statement, run: seq<Row>) returns (ok: bool)
      modifies this`db
      ensures ok == Batch(dialect, s, old(db), run).Some?
      ensures ok ==> db == Batch(dialect, s, old(db), run).value
      ensures !ok ==> exists n :: 0 <= n < |run| && Stopped(dialect, s, old(db), run, n, db)
    {
      for i := 0 to |run|
        invariant Batch(dialect, s, old(db), run[..i]) == Some(db)
      {
        assert run[..i + 1][..i] == run[..i];
        var next := Step(dialect, s, db, run[i]);
        if next.None? {
          StaysFailed(dialect, s, old(db), run, i + 1);
          assert Stopped(dialect, s, old(db), run, i, db);
          return false;
        }
        db := next.value;
      }
      assert run[..|run|] == run;
      return true;
    }

    /** `execute`. */
    method Execute(kind: Kind, run: seq<Row>) returns (ok: bool)
      requires run != [] && Homogeneous(run)
      modifies this
      ensures ok ==> Did(KindMode(kind), old(db.table), old(db.log), run, db)
      ensures old(KeysAreSafe()) && Clean(KindMode(kind), run) ==> ok
      ensures old(KeysAreSafe()) && ok ==> KeysAreSafe()
      ensures !ok ==>
        exists n :: 0 <= n < |run| && Refused(dialect, KindMode(kind), old(db.table), old(db.log), run, n, db)
      ensures Kept(dialect, old(explicitSinceAdvance), old(db), explicitSinceAdvance, db)
    {
      hide Moved;
      if dialect.Postgres? {
        if run[0].key.Some? {
          KeysPending(db, explicitSinceAdvance);
          explicitSinceAdvance := true;
        } else {
          Finish();
        }
      }
      ghost var before := db;
      var s := StatementOf(kind, run[0].cells.Keys);
      if explicitSinceAdvance || !dialect.Postgres? || Ahead(db.sequence, db.table) {
        if Clean(ModeOf(s), run) {
          BatchSucceeds(dialect, s, db, run);
        }
        if dialect.Postgres? && run[0].key.None? {
          AutoKeepsAhead(dialect, s, db, run);
        }
      }
      ok := Send(s, run);
      if ok {
        assert run[..|run|] == run;
        BatchKept(dialect, s, explicitSinceAdvance, before, run, |run|, db);
        BatchMeans(dialect, s, before, run);
      } else {
        ghost var n :| 0 <= n < |run| && Stopped(dialect, s, before, run, n, db);
        BatchKept(dialect, s, explicitSinceAdvance, before, run, n, db);
        StoppedMeans(dialect, s, before, run, n, db);
        assert Refused(dialect, KindMode(kind), old(db.table), old(db.log), run, n, db);
      }
    }

    /** `insert_plain`. */
    method InsertPlain(rows: seq<Row>) returns (ok: bool)
      modifies this
      ensures ok ==> Did(Error, old(db.table), old(db.log), rows, db)
      ensures old(KeysAreSafe()) && Clean(Error, rows) ==> ok
      ensures old(KeysAreSafe()) && ok ==> KeysAreSafe()
      ensures !ok ==> exists n :: 0 <= n < |rows| && Refused(dialect, Error, old(db.table), old(db.log), rows, n, db)
      ensures Kept(dialect, old(explicitSinceAdvance), old(db), explicitSinceAdvance, db)
    {
      hide Did, Refused, Kept;
      var runs := Runs(rows);
      ghost var before := db;
      KeptSame(dialect, explicitSinceAdvance, db);
      DidNothing(Error, db);
      assert runs[..|runs|] == runs;
      for i := 0 to |runs|
        invariant Did(Error, before.table, before.log, Joined(runs[..i]), db)
        invariant old(KeysAreSafe()) ==> KeysAreSafe()
        invariant Kept(dialect, old(explicitSinceAdvance), before, explicitSinceAdvance, db)
      {
        JoinedNext(runs, i);
        ghost var between, pending := db, explicitSinceAdvance;
        CleanRun(Error, runs, i);
        ok := Execute(Plain, runs[i]);
        KeptOn(dialect, old(explicitSinceAdvance), before, pending, between, explicitSinceAdvance, db);
        if !ok {
          ghost var n :| 0 <= n < |runs[i]| && Refused(dialect, Error, between.table, between.log, runs[i], n, db);
          RefusedLater(dialect, Error, before, runs, i, between, n, db);
          assert Refused(dialect, Error, old(db.table), old(db.log), rows, |Joined(runs[..i])| + n, db);
          return;
        }
        DidBoth(Error, before, Joined(runs[..i]), between, runs[i], db);
      }
      return true;
    }

    /** `existing_keys`: which of the keys are in the table, asked for 500 at a time. */
    method ExistingKeys(keys: seq<Option<int>>) returns (found: set<int>)
      ensures forall k :: k in found <==> k in db.table && Some(k) in keys
    {
      var wanted: seq<int> := [];
      for i := 0 to |keys|
        invariant forall k :: k in wanted <==> Some(k) in keys[..i]
      {
        assert keys[..i + 1] == keys[..i] + [keys[i]];
        if keys[i].Some? && keys[i].value !in wanted {
          wanted := wanted + [keys[i].value];
        }
      }
      assert keys[..|keys|] == keys;
      found := {};
      var at := 0;
      ghost var asked: seq<int> := [];
      while at < |wanted|
        invariant at >= 0 && asked == if at < |wanted| then wanted[..at] else wanted
        invariant forall k :: k in found <==> k in db.table && k in asked
      {
        var end := if at + LOOKUP_CHUNK < |wanted| then at + LOOKUP_CHUNK else |wanted|;
        var part := wanted[at..end];
        assert wanted[..end] == asked + part;
        found := found + set k | k in part && k in db.table;
        asked := asked + part;
        at := at + LOOKUP_CHUNK;
      }
    }

    /** `insert_ignore`. */
    method InsertIgnore(rows: seq<Row>) returns (ok: bool, count: nat)
      modifies this
      ensures ok ==> Did(Ignore, old(db.table), old(db.log), rows, db)
      ensures ok ==> count == |db.table| - |old(db.table)| + |Clashes(rows, db.log[|old(db.log)|..])|
      ensures old(KeysAreSafe()) && SupportsUpsert() ==> ok
      ensures old(KeysAreSafe()) && ok ==> KeysAreSafe()
      ensures !ok && !SupportsUpsert() ==> Clash(rows, |old(db.log)|, db.log)
      ensures Kept(dialect, old(explicitSinceAdvance), old(db), explicitSinceAdvance, db)
    {
      hide Did, Refused, Kept;
      ghost var before := db;
      var existing := ExistingKeys(KeysOf(rows));
      ExplicitKeys(rows, existing, db.table);
      var fresh_ := Fresh(existing, rows);
      FreshKeys(existing, rows);
      count := |fresh_|;
      KeptSame(dialect, explicitSinceAdvance, db);
      if fresh_ == [] {
        DidNothing(Ignore, db);
      } else if SupportsUpsert() {
        ok := SendRuns(Skipping, fresh_);
        if !ok {
          return;
        }
      } else {
        ok := InsertPlain(fresh_);
        if !ok {
          ghost var n :| 0 <= n < |fresh_| && Refused(dialect, Error, before.table, before.log, fresh_, n, db);
          FreshClash(dialect, before, existing, rows, n, db);
          return;
        }
        PlainDidAny(Ignore, before, fresh_, db);
      }
      ok := true;
      FreshDid(before, existing, rows, db);
      Counted(Ignore, before, rows, db);
    }

    /** `fresh`: the rows whose key is neither in the table nor in an earlier row. */
    method Fresh(existing: set<int>, rows: seq<Row>) returns (result: seq<Row>)
      ensures result == FreshRows(existing, rows)
    {
      var seen := existing;
      result := [];
      for i := 0 to |rows|
        invariant result == FreshRows(existing, rows[..i]) && seen == existing + Explicit(result)
      {
        assert rows[..i + 1][..i] == rows[..i];
        Appended(result, rows[i]);
        if rows[i].key.None? {
          result := result + [rows[i]];
        } else if rows[i].key.value !in seen {
          seen := seen + {rows[i].key.value};
          result := result + [rows[i]];
        }
      }
      assert rows[..|rows|] == rows;
    }

    /** The statements of `insert_ignore` and `insert_update`, run by run. */
    method SendRuns(kind: Kind, rows: seq<Row>) returns (ok: bool)
      requires !kind.Plain?
      modifies this
      ensures ok ==> Did(KindMode(kind), old(db.table), old(db.log), rows, db)
      ensures old(KeysAreSafe()) ==> ok
      ensures old(KeysAreSafe()) && ok ==> KeysAreSafe()
      ensures Kept(dialect, old(explicitSinceAdvance), old(db), explicitSinceAdvance, db)
    {
      hide Did, Refused, Kept;
      var runs := Runs(rows);
      ghost var before, mode := db, KindMode(kind);
      KeptSame(dialect, explicitSinceAdvance, db);
      DidNothing(mode, db);
      assert runs[..|runs|] == runs;
      for i := 0 to |runs|
        invariant Did(mode, before.table, before.log, Joined(runs[..i]), db)
        invariant old(KeysAreSafe()) ==> KeysAreSafe()
        invariant Kept(dialect, old(explicitSinceAdvance), before, explicitSinceAdvance, db)
      {
        JoinedNext(runs, i);
        ghost var between, pending := db, explicitSinceAdvance;
        var unkeyed := runs[i][0].key.None?;
        ok := Execute(if unkeyed then Plain else kind, runs[i]);
        KeptOn(dialect, old(explicitSinceAdvance), before, pending, between, explicitSinceAdvance, db);
        if !ok {
          return;
        }
        if unkeyed {
          UnkeyedDidAny(mode, between, runs[i], db);
        }
        DidBoth(mode, before, Joined(runs[..i]), between, runs[i], db);
      }
      return true;
    }

    /** `insert_update`. */
    method InsertUpdate(rows: seq<Row>) returns (ok: bool, count: nat)
      modifies this
      ensures ok ==> Did(Update, old(db.table), old(db.log), rows, db)
      ensures ok ==> count == |db.table| - |old(db.table)| + |Clashes(rows, db.log[|old(db.log)|..])|
      ensures old(KeysAreSafe()) && SupportsUpsert() ==> ok
      ensures old(KeysAreSafe()) && ok ==> KeysAreSafe()
      ensures !ok && !SupportsUpsert() ==> Clash(rows, |old(db.log)|, db.log)
      ensures Kept(dialect, old(explicitSinceAdvance), old(db), explicitSinceAdvance, db)
    {
      hide Did, Refused, Kept;
      ghost var before := db;
      var deduped := Merge(rows);
      MergedKeys(rows);
      var existing := ExistingKeys(KeysOf(deduped));
      ExplicitKeys(deduped, existing, db.table);
      count := CountFresh(existing, deduped);
      CountIsKeys(existing, deduped);
      if SupportsUpsert() {
        ok := SendRuns(Overwriting, deduped);
      } else {
        ok := UpdateOrInsert(existing, deduped);
        KeptElsewhere(dialect, old(explicitSinceAdvance), before, explicitSinceAdvance, db);
      }
      if ok {
        MergedDid(before, rows, db);
        Counted(Update, before, rows, db);
      }
    }

    /** `merged` and `deduped`: rows with the same key become one, where it came first. */
    method Merge(rows: seq<Row>) returns (deduped: seq<Row>)
      ensures deduped == Merged(rows)
    {
      // Where the row of each key stands in `deduped`.
      var at: map<int, nat> := map[];
      deduped := [];
      for i := 0 to |rows|
        invariant deduped == Merged(rows[..i])
        invariant at.Keys == Explicit(deduped)
        invariant forall k :: k in at ==> at[k] == IndexOf(deduped, k)
      {
        assert rows[..i + 1][..i] == rows[..i];
        var r := rows[i];
        Appended(deduped, r);
        if r.key.None? {
          deduped := deduped + [r];
        } else if r.key.value in at {
          var p := at[r.key.value];
          assert r.key.value in Explicit(deduped) && p == IndexOf(deduped, r.key.value);
          MergedAtKeys(deduped, p, r.cells);
          forall k | k in at ensures IndexOf(MergedAt(deduped, p, r.cells), k) == at[k] {
            IndexInMerged(deduped, p, r.cells, k);
          }
          deduped := MergedAt(deduped, p, r.cells);
        } else {
          at := at[r.key.value := |deduped|];
          deduped := deduped + [r];
        }
      }
      assert rows[..|rows|] == rows;
    }

    /** `inserted`: the rows that are new to the table. */
    method CountFresh(existing: set<int>, rows: seq<Row>) returns (count: nat)
      ensures count == CountNew(existing, rows)
    {
      count := 0;
      for i := 0 to |rows|
        invariant count == CountNew(existing, rows[..i])
      {
        assert rows[..i + 1][..i] == rows[..i];
        if rows[i].key.None? || rows[i].key.value !in existing {
          count := count + 1;
        }
      }
      assert rows[..|rows|] == rows;
    }

    /** The branch without UPSERT: UPDATE the rows that are there, INSERT the others. */
    method UpdateOrInsert(existing: set<int>, rows: seq<Row>) returns (ok: bool)
      requires !SupportsUpsert()
      requires EachKeyOnce(rows) && existing == db.table.Keys * Explicit(rows)
      modifies this
      ensures !ok ==> Clash(rows, |old(db.log)|, db.log)
      ensures ok ==> Did(Update, old(db.table), old(db.log), rows, db)
      ensures old(KeysAreSafe()) && ok ==> KeysAreSafe()
    {
      hide Did, Refused, EachKeyOnce;
      var runs := Runs(rows);
      ghost var before := db;
      DidNothing(Update, db);
      assert runs[..|runs|] == runs;
      for i := 0 to |runs|
        invariant Did(Update, before.table, before.log, Joined(runs[..i]), db)
        invariant existing <= db.table.Keys
        invariant old(KeysAreSafe()) ==> KeysAreSafe()
      {
        JoinedNext(runs, i);
        ghost var between := db;
        var run := runs[i];
        OnceInRun(runs, i);
        ghost var started;
        ok, started := UpdateOrInsertRun(existing, run);
        if !ok {
          ghost var inserts := ToInsert(existing, run);
          ghost var n :| 0 <= n < |inserts| && Refused(dialect, Error, started.table, started.log, inserts, n, db);
          InsertsClash(dialect, before, existing, runs, i, between, started, n, db);
          return;
        }
        DidBoth(Update, before, Joined(runs[..i]), between, run, db);
        KeysStay(before, Joined(runs[..i + 1]), existing, db);
      }
      return true;
    }

    method UpdateOrInsertRun(existing: set<int>, run: seq<Row>) returns (ok: bool, ghost started: Db)
      requires run != [] && Homogeneous(run) && EachKeyOnce(run) && existing <= db.table.Keys
      modifies this
      ensures ok ==> Did(Update, old(db.table), old(db.log), run, db)
      ensures old(KeysAreSafe()) && ok ==> KeysAreSafe()
      ensures started.log == old(db.log) && started.table.Keys == old(db.table.Keys)
      ensures !ok ==>
        exists n :: 0 <= n < |ToInsert(existing, run)|
          && Refused(dialect, Error, started.table, started.log, ToInsert(existing, run), n, db)
    {
      hide Did, Refused, EachKeyOnce;
      ghost var before := db;
      var updates, inserts := Split(existing, run);
      SplitKeys(existing, run);
      if updates != [] && run[0].cells.Keys != {} {
        UpdateRows(updates);
      } else {
        NothingToUpdate(before.table, existing, run);
      }
      started := db;
      if inserts != [] {
        ok := InsertPlain(inserts);
        if !ok {
          return;
        }
      } else {
        DidNothing(Error, db);
      }
      SplitDid(before, existing, run, db);
      ok := true;
    }

    method Split(existing: set<int>, run: seq<Row>) returns (updates: seq<Row>, inserts: seq<Row>)
      ensures updates == ToUpdate(existing, run) && inserts == ToInsert(existing, run)
    {
      updates, inserts := [], [];
      for i := 0 to |run|
        invariant updates == ToUpdate(existing, run[..i]) && inserts == ToInsert(existing, run[..i])
      {
        assert run[..i + 1][..i] == run[..i];
        if run[i].key.Some? && run[i].key.value in existing {
          updates := updates + [run[i]];
        } else {
          inserts := inserts + [run[i]];
        }
      }
      assert run[..|run|] == run;
    }

    /** The UPDATE statement for each row; it only touches rows that are there. */
    method UpdateRows(updates: seq<Row>)
      requires Unkeyed(updates) == 0 && Explicit(updates) <= db.table.Keys
      modifies this`db
      ensures db == old(db).(table := Applied(Update, old(db.table), updates, []))
      ensures db.table.Keys == old(db.table.Keys)
    {
      for i := 0 to |updates|
        invariant Unkeyed(updates[..i]) == 0
        invariant db == old(db).(table := Applied(Update, old(db.table), updates[..i], []))
        invariant db.table.Keys == old(db.table.Keys)
      {
        PartOf(updates, i);
        assert updates[..i + 1][..i] == updates[..i];
        var k := updates[i].key.value;
        db := db.(table := db.table[k := db.table[k] + updates[i].cells]);
      }
      assert updates[..|updates|] == updates;
    }

    /** One chunk in the mode that was asked for. */
    method InsertChunk(mode: OnConflict, rows: seq<Row>) returns (ok: bool, count: nat)
      modifies this
      ensures ok ==> Did(mode, old(db.table), old(db.log), rows, db)
      ensures ok ==> count == |db.table| - |old(db.table)| + |Clashes(rows, db.log[|old(db.log)|..])|
      ensures old(KeysAreSafe()) && SupportsUpsert() && !mode.Error? ==> ok
      ensures old(KeysAreSafe()) && ok ==> KeysAreSafe()
      ensures !ok && !SupportsUpsert() && !mode.Error? ==> Clash(rows, |old(db.log)|, db.log)
      ensures !ok && mode.Error? ==>
        exists n :: 0 <= n < |rows| && Refused(dialect, Error, old(db.table), old(db.log), rows, n, db)
      ensures Kept(dialect, old(explicitSinceAdvance), old(db), explicitSinceAdvance, db)
    {
      hide Refused, Kept;
      match mode
      case Error =>
        ghost var before := db;
        ok := InsertPlain(rows);
        count := |rows|;
        if ok {
          PlainClashes(before.table, rows, db.log[|before.log|..]);
        }
      case Ignore => ok, count := InsertIgnore(rows);
      case Update => ok, count := InsertUpdate(rows);
    }

    /** `insert_rows`. */
    method InsertRows(raws: seq<Raw>, mode: OnConflict, chunk: int) returns (outcome: Outcome)
      requires !explicitSinceAdvance
      modifies this
      ensures outcome.ValueError? <==> chunk < 1
      ensures outcome.ValueError? ==> db == old(db)
      ensures outcome.Inserted? ==> Did(mode, old(db.table), old(db.log), Prepared(raws), db)
      ensures outcome.Inserted? ==> Stored(mode, old(db.table), old(db.log), raws, |raws|, db)
      ensures outcome.Inserted? ==> outcome.count >= |db.table| - |old(db.table)|
      ensures outcome.Inserted? && !Clash(Prepared(raws), |old(db.log)|, db.log) ==>
        outcome.count == |db.table| - |old(db.table)|
      ensures old(KeysAreSafe()) && SupportsUpsert() && !mode.Error? ==> !outcome.IntegrityError?
      ensures !SupportsUpsert() && !mode.Error? && outcome.IntegrityError? ==>
        Clash(Prepared(raws), |old(db.log)|, db.log)
      ensures mode.Error? && outcome.IntegrityError? ==>
        exists n :: 0 <= n < |raws|
          && Refused(dialect, Error, old(db.table), old(db.log), Prepared(raws), n, db)
          && TakenAt(dialect, old(db.table), old(db.log), raws, n, db)
      ensures old(KeysAreSafe()) && outcome.Inserted? && dialect.Postgres? ==> Ahead(db.sequence, db.table)
      // The sequence of PostgreSQL only moves forward, with exactly one exception.
      ensures dialect.Postgres? && Steady(old(db.sequence)) ==> NextValue(db.sequence) >= NextValue(old(db.sequence))
      ensures dialect.Postgres? && outcome.Inserted? ==>
        (NextValue(db.sequence) < NextValue(old(db.sequence)) <==>
           && !Steady(old(db.sequence)) && old(db.sequence).last > Top(db.table) + 1
           && !(db.sequence == old(db.sequence) && db.table == old(db.table)))
      ensures dialect.Postgres? && outcome.Inserted? && NextValue(db.sequence) < NextValue(old(db.sequence)) ==>
        NextValue(db.sequence) == Top(db.table) + 1
    {
      if chunk < 1 {
        return ValueError;
      }
      hide Did, Refused, Clash, Clashes, Going, Prepared, Kept, NextValue, Steady, Moved, Top, Unkeyed, Ahead;
      hide Stored, TakenAt;
      ghost var before, rows := db, Prepared(raws);
      var ok, total := InsertParts(raws, mode, chunk);
      if dialect.Postgres? {
        SequenceForward(dialect, before, explicitSinceAdvance, db);
      }
      if !ok {
        if mode.Error? {
          ghost var n :| 0 <= n < |raws| && Refused(dialect, Error, before.table, before.log, rows, n, db);
          RefusedIsTaken(dialect, before.table, before.log, raws, n, db);
        }
        return IntegrityError;
      }
      ghost var between, pending := db, explicitSinceAdvance;
      Finish();
      KeptOn(dialect, false, before, pending, between, false, db);
      if dialect.Postgres? {
        SequenceForward(dialect, before, false, db);
        MovedBackIff(before.sequence, before.table, db.sequence, db.table);
      }
      GoneThrough(mode, before, rows, total, db);
      AllStored(mode, before.table, before.log, raws, db);
      return Inserted(total);
    }

    /** The loop over the chunks. */
    method InsertParts(raws: seq<Raw>, mode: OnConflict, chunk: int) returns (ok: bool, total: nat)
      requires !explicitSinceAdvance && chunk >= 1
      modifies this
      ensures ok ==> Going(mode, old(db), Prepared(raws), |raws|, total, db)
      ensures old(KeysAreSafe()) && SupportsUpsert() && !mode.Error? ==> ok
      ensures !SupportsUpsert() && !mode.Error? && !ok ==> Clash(Prepared(raws), |old(db.log)|, db.log)
      ensures mode.Error? && !ok ==>
        exists n :: 0 <= n < |raws|
          && Refused(dialect, Error, old(db.table), old(db.log), Prepared(raws), n, db)
      ensures old(KeysAreSafe()) && ok ==> KeysAreSafe()
      ensures Kept(dialect, false, old(db), explicitSinceAdvance, db)
    {
      hide Did, Refused, Clash, Clashes, Going, Prepared, Kept;
      ghost var before, rows := db, Prepared(raws);
      var at: nat := 0;
      total := 0;
      KeptSame(dialect, false, db);
      GoingStart(mode, db, rows);
      while at < |raws|
        invariant 0 <= at <= |raws|
        invariant Going(mode, before, rows, at, total, db)
        invariant old(KeysAreSafe()) ==> KeysAreSafe()
        invariant Kept(dialect, false, before, explicitSinceAdvance, db)
      {
        var end := if at + chunk < |raws| then at + chunk else |raws|;
        PreparedPart(raws, at, end);
        ghost var between, pending := db, explicitSinceAdvance;
        var count;
        ok, count := InsertChunk(mode, Prepared(raws[at..end]));
        KeptOn(dialect, false, before, pending, between, explicitSinceAdvance, db);
        if !ok {
          ChunkFailed(dialect, mode, before, rows, at, end, total, between, db);
          return;
        }
        GoingOn(mode, before, rows, at, end, total, between, count, db);
        at, total := end, total + count;
      }
      ok := true;
    }
  }

  lemma {:induction false} GoingStart(mode: OnConflict, db: Db, rows: seq<Row>)
    ensures Going(mode, db, rows, 0, 0, db)
  {
    DidNothing(mode, db);
    assert rows[..0] == [];
  }

  lemma {:induction false} PreparedPart(raws: seq<Raw>, at: nat, end: nat)
    requires at <= end <= |raws|
    ensures Prepared(raws[at..end]) == Prepared(raws)[at..end]
  {
  }

  /**
   `START 1000` and one row with the key 5: the promise that the sequence is not taken back
   fails.
   */
  method UnusedSequenceGoesBack() returns (w: Writer, outcome: Outcome)
    ensures fresh(w) && outcome.Inserted?
    ensures w.db.table == map[5 := map[]] && NextValue(w.db.sequence) == 6 < NextValue(Sequence(1000, false))
  {
    hide Kept, Applied, Applies, Unkeyed;
    w := new Writer(Postgres, Db(map[], Sequence(1000, false), []));
    outcome := w.InsertRows([Raw(Given(5), map[])], Update, 1000);
    OneRow(w.db);
  }

  lemma {:induction false} OneRow(db: Db)
    ensures Prepared([Raw(Given(5), map[])]) == [Row(Some(5), map[])]
    ensures Did(Update, map[], [], [Row(Some(5), map[])], db) ==> db.table == map[5 := map[]] && Top(db.table) == 5
  {
    var rows := [Row(Some(5), map[])];
    assert rows[..0] == [];
    var t: Table := map[5 := map[]];
    assert 5 in t;
  }

  lemma {:induction false} KeptSame(d: Dialect, pending: bool, db: Db)
    ensures Kept(d, pending, db, pending, db)
  {
  }

  lemma {:induction false} KeptOn(d: Dialect, p: bool, a: Db, q: bool, b: Db, r: bool, c: Db)
    requires Kept(d, p, a, q, b) && Kept(d, q, b, r, c)
    ensures Kept(d, p, a, r, c)
  {
    hide Moved;
  }

  lemma {:induction false} KeptElsewhere(d: Dialect, p: bool, a: Db, q: bool, b: Db)
    requires !d.Postgres?
    ensures Kept(d, p, a, q, b)
  {
  }

  lemma {:induction false} Advancing(d: Dialect, db: Db)
    ensures Kept(d, true, db, false, db.(sequence := Advanced(db.sequence, db.table)))
  {
    hide Moved, Advanced;
    forall was, from | Moved(was, from, true, db.sequence, db.table)
      ensures Moved(was, from, false, Advanced(db.sequence, db.table), db.table)
    {
      MovedAdvances(was, from, true, db.sequence, db.table);
    }
  }

  lemma {:induction false} KeysPending(db: Db, pending: bool)
    ensures Kept(Postgres, pending, db, true, db)
  {
  }

  lemma {:induction false} BatchKept(d: Dialect, s: Statement, pending: bool, before: Db, run: seq<Row>, n: nat, db: Db)
    requires n <= |run| && Batch(d, s, before, run[..n]) == Some(db)
    requires d.Postgres? ==> forall i :: 0 <= i < |run| ==> run[i].key.Some? == pending
    ensures Kept(d, pending, before, pending, db)
  {
    hide Moved;
    if d.Postgres? {
      forall was, from | Moved(was, from, pending, before.sequence, before.table)
        ensures Moved(was, from, pending, db.sequence, db.table)
      {
        BatchMoves(s, was, from, pending, before, run[..n]);
      }
    }
  }

  lemma {:induction false} SequenceForward(d: Dialect, before: Db, pending: bool, db: Db)
    requires Kept(d, false, before, pending, db) && d.Postgres?
    ensures Moved(before.sequence, before.table, pending, db.sequence, db.table)
    ensures Steady(before.sequence) ==> NextValue(db.sequence) >= NextValue(before.sequence)
  {
    assert Moved(before.sequence, before.table, false, before.sequence, before.table);
  }

  /** A key that was given out since `from` is also the key of one of the rows. */
  ghost predicate Clash(rows: seq<Row>, from: nat, log: seq<int>) {
    exists i :: from <= i < |log| && log[i] in Explicit(rows)
  }

  /** The batch went well up to row `n`, and that row failed. */
  ghost predicate Stopped(d: Dialect, s: Statement, before: Db, run: seq<Row>, n: nat, db: Db) {
    && n < |run| && Batch(d, s, before, run[..n]) == Some(db) && Step(d, s, db, run[n]).None?
  }

  /** The first `n` rows were done; the key of the next one is taken. */
  ghost predicate Refused(d: Dialect, mode: OnConflict, t: Table, log: seq<int>, rows: seq<Row>, n: nat, db: Db) {
    && n < |rows| && Did(mode, t, log, rows[..n], db)
    && (if rows[n].key.None? then FreeKey(d, db) in db.table else mode.Error? && rows[n].key.value in db.table)
  }

  lemma {:induction false} StaysFailed(d: Dialect, s: Statement, db: Db, run: seq<Row>, n: nat)
    requires n <= |run| && Batch(d, s, db, run[..n]).None?
    ensures Batch(d, s, db, run).None?
    decreases |run|
  {
    if n < |run| {
      assert run[..|run| - 1][..n] == run[..n];
      StaysFailed(d, s, db, run[..|run| - 1], n);
    } else {
      assert run[..n] == run;
    }
  }

  lemma {:induction false} StoppedMeans(d: Dialect, s: Statement, before: Db, run: seq<Row>, n: nat, db: Db)
    requires Stopped(d, s, before, run, n, db)
    requires forall i :: 0 <= i < |run| ==> run[i].cells.Keys == s.columns
    ensures Refused(d, ModeOf(s), before.table, before.log, run, n, db)
  {
    BatchMeans(d, s, before, run[..n]);
  }

  lemma {:induction false} JoinedNext(runs: seq<seq<Row>>, i: nat)
    requires i < |runs|
    ensures Joined(runs[..i + 1]) == Joined(runs[..i]) + runs[i]
  {
    assert runs[..i + 1][..i] == runs[..i];
  }

  lemma {:induction false} JoinedAt(runs: seq<seq<Row>>, i: nat)
    requires i < |runs|
    ensures Joined(runs[..i]) + runs[i] <= Joined(runs)
    decreases |runs|
  {
    var last := |runs| - 1;
    if i == last {
      assert runs[..i] == runs[..last];
    } else {
      JoinedAt(runs[..last], i);
      assert runs[..last][..i] == runs[..i];
    }
  }

  lemma {:induction false} CleanRun(mode: OnConflict, runs: seq<seq<Row>>, i: nat)
    requires i < |runs|
    ensures Clean(mode, Joined(runs)) ==> Clean(mode, runs[i])
  {
    JoinedAt(runs, i);
    var k := |Joined(runs[..i])|;
    forall j | 0 <= j < |runs[i]| ensures Joined(runs)[k + j] == runs[i][j] {
      assert (Joined(runs[..i]) + runs[i])[k + j] == runs[i][j];
    }
    if Clean(mode, Joined(runs)) && mode.Error? {
      forall j | 0 <= j < |runs[i]| ensures runs[i][j].key.None? {
        assert Joined(runs)[k + j] == runs[i][j];
      }
    }
  }

  lemma {:induction false} RefusedLater(d: Dialect, mode: OnConflict, before: Db, runs: seq<seq<Row>>, i: nat,
                                        between: Db, n: nat, db: Db)
    requires i < |runs| && Did(mode, before.table, before.log, Joined(runs[..i]), between)
    requires Refused(d, mode, between.table, between.log, runs[i], n, db)
    ensures |Joined(runs[..i])| + n < |Joined(runs)|
    ensures Refused(d, mode, before.table, before.log, Joined(runs), |Joined(runs[..i])| + n, db)
  {
    hide Did, Joined;
    JoinedAt(runs, i);
    var done := Joined(runs[..i]);
    DidBoth(mode, before, done, between, runs[i][..n], db);
    var all := Joined(runs);
    assert all[..|done| + |runs[i]|] == done + runs[i];
    assert all[..|done| + n] == done + runs[i][..n];
    assert all[|done| + n] == runs[i][n];
  }

  function KeysOf(rows: seq<Row>): (keys: seq<Option<int>>)
    ensures |keys| == |rows| && forall i :: 0 <= i < |rows| ==> keys[i] == rows[i].key
  {
    seq(|rows|, i requires 0 <= i < |rows| => rows[i].key)
  }

  lemma {:induction false} ExplicitKeys(rows: seq<Row>, existing: set<int>, t: Table)
    requires forall k :: k in existing <==> k in t && Some(k) in KeysOf(rows)
    ensures existing == t.Keys * Explicit(rows)
  {
    forall k ensures k in Explicit(rows) <==> Some(k) in KeysOf(rows) {
      if Some(k) in KeysOf(rows) {
        var i :| 0 <= i < |rows| && KeysOf(rows)[i] == Some(k);
        InExplicit(rows, i);
      }
      if k in Explicit(rows) {
        assert KeysOf(rows)[IndexOf(rows, k)] == Some(k);
      }
    }
    EqualSets(existing, t.Keys * Explicit(rows));
  }

  lemma {:induction false} PlainDidAny(mode: OnConflict, before: Db, rows: seq<Row>, db: Db)
    requires Did(Error, before.table, before.log, rows, db)
    ensures Did(mode, before.table, before.log, rows, db)
  {
    PlainIsAny(mode, before.table, rows, db.log[|before.log|..]);
  }

  lemma {:induction false} UnkeyedDidAny(mode: OnConflict, before: Db, run: seq<Row>, db: Db)
    requires Did(Error, before.table, before.log, run, db)
    ensures Did(mode, before.table, before.log, run, db)
  {
    PlainDidAny(mode, before, run, db);
  }

  lemma {:induction false} FreshDid(before: Db, existing: set<int>, rows: seq<Row>, db: Db)
    requires existing == before.table.Keys * Explicit(rows)
    requires Did(Ignore, before.table, before.log, FreshRows(existing, rows), db)
    ensures Did(Ignore, before.table, before.log, rows, db)
  {
    FreshKeys(existing, rows);
    FreshMeansIgnore(before.table, existing, rows, db.log[|before.log|..]);
  }

  lemma {:induction false} Counted(mode: OnConflict, before: Db, rows: seq<Row>, db: Db)
    requires Did(mode, before.table, before.log, rows, db)
    ensures Unkeyed(rows) + |Explicit(rows) - before.table.Keys * Explicit(rows)|
         == |db.table| - |before.table| + |Clashes(rows, db.log[|before.log|..])|
  {
    hide Explicit, Unkeyed, Applied, Applies, Clashes;
    CountAndGrowth(mode, before.table, rows, db.log[|before.log|..]);
    assert Explicit(rows) - before.table.Keys * Explicit(rows) == Explicit(rows) - before.table.Keys;
  }

  lemma {:induction false} PartOf(rows: seq<Row>, i: nat)
    requires i < |rows| && Unkeyed(rows) == 0
    ensures Unkeyed(rows[..i]) == 0 && Unkeyed(rows[..i + 1]) == 0
    ensures rows[i].key.Some? && rows[i].key.value in Explicit(rows)
    decreases |rows|
  {
    var last := |rows| - 1;
    if i < last {
      PartOf(rows[..last], i);
      assert rows[..last][..i] == rows[..i] && rows[..last][..i + 1] == rows[..i + 1];
    } else {
      assert rows[..i + 1] == rows;
    }
  }

  lemma {:induction false} IndexInMerged(rows: seq<Row>, p: nat, cells: Cells, k: int)
    requires p < |rows| && k in Explicit(rows)
    ensures k in Explicit(MergedAt(rows, p, cells)) && IndexOf(MergedAt(rows, p, cells), k) == IndexOf(rows, k)
  {
    var last := |rows| - 1;
    var m := MergedAt(rows, p, cells);
    MergedAtKeys(rows, p, cells);
    if p < last {
      assert m[..last] == MergedAt(rows[..last], p, cells);
      MergedAtKeys(rows[..last], p, cells);
      if k in Explicit(rows[..last]) {
        IndexInMerged(rows[..last], p, cells, k);
      }
    } else {
      assert m[..last] == rows[..last];
    }
  }

  lemma {:induction false} MergedDid(before: Db, rows: seq<Row>, db: Db)
    requires Did(Update, before.table, before.log, Merged(rows), db)
    ensures Did(Update, before.table, before.log, rows, db)
  {
    MergedKeys(rows);
    MergedMeansUpdate(before.table, rows, db.log[|before.log|..]);
  }

  lemma {:induction false} OnceInRun(runs: seq<seq<Row>>, i: nat)
    requires i < |runs| && EachKeyOnce(Joined(runs))
    ensures EachKeyOnce(runs[i])
  {
    JoinedAt(runs, i);
    var k := |Joined(runs[..i])|;
    forall j | 0 <= j < |runs[i]| ensures Joined(runs)[k + j] == runs[i][j] {
      assert (Joined(runs[..i]) + runs[i])[k + j] == runs[i][j];
    }
    forall p, q | 0 <= p < q < |runs[i]| && runs[i][p].key.Some? ensures runs[i][p].key != runs[i][q].key {
      assert Joined(runs)[k + p] == runs[i][p] && Joined(runs)[k + q] == runs[i][q];
    }
  }

  /** Without columns to set, updating would not change anything. */
  lemma {:induction false} NothingToUpdate(t: Table, existing: set<int>, run: seq<Row>)
    requires existing <= t.Keys && run != [] && Homogeneous(run)
    ensures Unkeyed(ToUpdate(existing, run)) == 0
    ensures ToUpdate(existing, run) == [] || run[0].cells.Keys == {} ==>
      Applied(Update, t, ToUpdate(existing, run), []) == t
  {
    hide ToUpdate, ToInsert, Explicit, Unkeyed;
    SplitKeys(existing, run);
    if ToUpdate(existing, run) != [] && run[0].cells.Keys == {} {
      EmptyUpdate(t, existing, run);
    }
  }

  lemma {:induction false} EmptyUpdate(t: Table, existing: set<int>, run: seq<Row>)
    requires existing <= t.Keys && forall i :: 0 <= i < |run| ==> run[i].cells.Keys == {}
    ensures Unkeyed(ToUpdate(existing, run)) == 0 && Applied(Update, t, ToUpdate(existing, run), []) == t
  {
    hide ToUpdate, ToInsert, Explicit, Unkeyed;
    SplitKeys(existing, run);
    if run == [] {
      SplitNothing(existing);
    } else {
      var before, r := run[..|run| - 1], run[|run| - 1];
      assert run == before + [r];
      SplitLast(existing, before, r);
      SplitKeys(existing, before);
      EmptyUpdate(t, existing, before);
      if r.key.Some? && r.key.value in existing {
        NothingToSet(t, ToUpdate(existing, before), r);
      }
    }
  }

  lemma {:induction false} NothingToSet(t: Table, rows: seq<Row>, r: Row)
    requires Unkeyed(rows) == 0 && Unkeyed(rows + [r]) == 0 && Applied(Update, t, rows, []) == t
    requires r.key.Some? && r.key.value in t && r.cells.Keys == {}
    ensures Applied(Update, t, rows + [r], []) == t
  {
    assert (rows + [r])[..|rows + [r]| - 1] == rows;
    assert r.cells == map[];
    assert t[r.key.value] + r.cells == t[r.key.value];
  }

  lemma {:induction false} SplitDid(before: Db, existing: set<int>, run: seq<Row>, db: Db)
    requires existing <= before.table.Keys && EachKeyOnce(run)
    requires Unkeyed(ToUpdate(existing, run)) == 0
    requires Did(Error, Applied(Update, before.table, ToUpdate(existing, run), []), before.log,
                 ToInsert(existing, run), db)
    ensures Did(Update, before.table, before.log, run, db)
  {
    var given := db.log[|before.log|..];
    var between := Applied(Update, before.table, ToUpdate(existing, run), []);
    PlainIsAny(Update, between, ToInsert(existing, run), given);
    SplitKeys(existing, run);
    UpdatesThenInserts(before.table, existing, run, given);
  }

  lemma {:induction false} KeysStay(before: Db, rows: seq<Row>, existing: set<int>, db: Db)
    requires Did(Update, before.table, before.log, rows, db) && existing <= before.table.Keys
    ensures existing <= db.table.Keys
  {
    KeysAfter(Update, before.table, rows, db.log[|before.log|..]);
  }

  /** The key of a row is taken although no earlier row and no row of the table had it. */
  lemma {:induction false} TakenIsClash(mode: OnConflict, before: Db, done: seq<Row>, db: Db, k: int)
    requires Did(mode, before.table, before.log, done, db)
    requires k in db.table && k !in before.table && k !in Explicit(done)
    ensures exists i :: |before.log| <= i < |db.log| && db.log[i] == k
  {
    var given := db.log[|before.log|..];
    KeysAfter(mode, before.table, done, given);
    var i :| 0 <= i < Unkeyed(done) && given[i] == k;
    assert db.log[|before.log| + i] == k;
  }

  lemma {:induction false} FreshOnce(existing: set<int>, rows: seq<Row>)
    ensures EachKeyOnce(FreshRows(existing, rows))
  {
    if rows != [] {
      var before, r := FreshRows(existing, rows[..|rows| - 1]), rows[|rows| - 1];
      FreshOnce(existing, rows[..|rows| - 1]);
      forall i | 0 <= i < |before| && before[i].key.Some? ensures before[i].key.value in Explicit(before) {
        InExplicit(before, i);
      }
    }
  }

  lemma {:induction false} OnceBehind(rows: seq<Row>, n: nat)
    requires n < |rows| && EachKeyOnce(rows) && rows[n].key.Some?
    ensures rows[n].key.value !in Explicit(rows[..n]) && rows[n].key.value in Explicit(rows)
  {
    NotExplicit(rows[..n], rows[n].key.value);
    InExplicit(rows, n);
  }

  lemma {:induction false} FreshClash(d: Dialect, before: Db, existing: set<int>, rows: seq<Row>, n: nat, db: Db)
    requires !d.Postgres? && existing == before.table.Keys * Explicit(rows)
    requires n < |FreshRows(existing, rows)|
    requires Refused(d, Error, before.table, before.log, FreshRows(existing, rows), n, db)
    ensures Clash(rows, |before.log|, db.log)
  {
    hide Did;
    var sent := FreshRows(existing, rows);
    FreshOnce(existing, rows);
    FreshKeys(existing, rows);
    OnceBehind(sent, n);
    TakenIsClash(Error, before, sent[..n], db, sent[n].key.value);
  }

  lemma {:induction false} InsertsOnce(existing: set<int>, run: seq<Row>)
    requires EachKeyOnce(run)
    ensures EachKeyOnce(ToInsert(existing, run))
  {
    hide ToInsert, Explicit;
    if run == [] {
      SplitNothing(existing);
    } else {
      var before, r := run[..|run| - 1], run[|run| - 1];
      assert run == before + [r];
      InsertsOnce(existing, before);
      SplitLast(existing, before, r);
      InsertsBehind(existing, before, r);
    }
  }

  lemma {:induction false} InsertsBehind(existing: set<int>, before: seq<Row>, r: Row)
    requires EachKeyOnce(before + [r])
    ensures var sent := ToInsert(existing, before);
      forall i :: 0 <= i < |sent| && sent[i].key.Some? ==> sent[i].key != r.key
  {
    var sent := ToInsert(existing, before);
    SplitKeys(existing, before);
    forall i | 0 <= i < |sent| && sent[i].key.Some? ensures sent[i].key != r.key {
      InExplicit(sent, i);
      var j := IndexOf(before, sent[i].key.value);
      assert (before + [r])[j] == before[j] && (before + [r])[|before|] == r;
    }
  }

  lemma {:induction false} InsertsClash(d: Dialect, before: Db, existing: set<int>, runs: seq<seq<Row>>, i: nat,
                                        between: Db, started: Db, n: nat, db: Db)
    requires !d.Postgres? && i < |runs| && EachKeyOnce(Joined(runs))
    requires existing == before.table.Keys * Explicit(Joined(runs))
    requires Did(Update, before.table, before.log, Joined(runs[..i]), between)
    requires started.log == between.log && started.table.Keys == between.table.Keys
    requires n < |ToInsert(existing, runs[i])|
    requires Refused(d, Error, started.table, started.log, ToInsert(existing, runs[i]), n, db)
    ensures Clash(Joined(runs), |before.log|, db.log)
  {
    var inserts := ToInsert(existing, runs[i]);
    OnceInRun(runs, i);
    InsertsOnce(existing, runs[i]);
    SplitKeys(existing, runs[i]);
    OnceBehind(inserts, n);
    var k := inserts[n].key.value;
    KeyOfRun(runs, i, k);
    if k in started.table {
      TakenIsClash(Update, before, Joined(runs[..i]), between, k);
      var j :| |before.log| <= j < |between.log| && between.log[j] == k;
      assert db.log[j] == between.log[j];
    } else {
      TakenIsClash(Error, started, inserts[..n], db, k);
    }
  }

  lemma {:induction false} KeyOfRun(runs: seq<seq<Row>>, i: nat, k: int)
    requires i < |runs| && EachKeyOnce(Joined(runs)) && k in Explicit(runs[i])
    ensures k in Explicit(Joined(runs)) && k !in Explicit(Joined(runs[..i]))
  {
    JoinedAt(runs, i);
    var all, before := Joined(runs), Joined(runs[..i]);
    var p := |before| + IndexOf(runs[i], k);
    assert all[p] == (before + runs[i])[p] == runs[i][IndexOf(runs[i], k)];
    InExplicit(all, p);
    forall j | 0 <= j < |before| ensures before[j].key != Some(k) {
      assert all[j] == (before + runs[i])[j] == before[j];
    }
    NotExplicit(before, k);
  }

  // --------------------------------------------------------------------- the total

  /** The total so far is the growth of the table, and more only after a clash. */
  ghost predicate Count(before: Db, rows: seq<Row>, total: nat, db: Db) {
    && total >= |db.table| - |before.table|
    && (!Clash(rows, |before.log|, db.log) ==> total == |db.table| - |before.table|)
  }

  /** After the first `at` rows. */
  ghost predicate Going(mode: OnConflict, before: Db, rows: seq<Row>, at: nat, total: nat, db: Db) {
    at <= |rows| && Did(mode, before.table, before.log, rows[..at], db) && Count(before, rows, total, db)
  }

  /** Only the table and the log matter. */
  lemma {:induction false} GoneThrough(mode: OnConflict, before: Db, rows: seq<Row>, total: nat, db: Db)
    ensures forall was: Db ::
      was.table == db.table && was.log == db.log && Going(mode, before, rows, |rows|, total, was) ==>
      && Did(mode, before.table, before.log, rows, db)
      && total >= |db.table| - |before.table|
      && (!Clash(rows, |before.log|, db.log) ==> total == |db.table| - |before.table|)
  {
    assert rows[..|rows|] == rows;
  }

  lemma {:induction false} GoingOn(mode: OnConflict, before: Db, rows: seq<Row>, at: nat, end: nat, total: nat,
                                   between: Db, count: nat, db: Db)
    requires at <= end <= |rows| && Going(mode, before, rows, at, total, between)
    requires Did(mode, between.table, between.log, rows[at..end], db)
    requires count == |db.table| - |between.table| + |Clashes(rows[at..end], db.log[|between.log|..])|
    ensures Going(mode, before, rows, end, total + count, db)
  {
    hide Did, Count, Clashes;
    DidBoth(mode, before, rows[..at], between, rows[at..end], db);
    assert rows[..end] == rows[..at] + rows[at..end];
    CountOn(mode, before, rows, at, end, total, between, count, db);
  }

  lemma {:induction false} PartKeys(rows: seq<Row>, at: nat, end: nat)
    requires at <= end <= |rows|
    ensures Explicit(rows[at..end]) <= Explicit(rows)
  {
    assert rows == rows[..at] + (rows[at..end] + rows[end..]);
    UnkeyedConcat(rows[..at], rows[at..end] + rows[end..]);
    UnkeyedConcat(rows[at..end], rows[end..]);
  }

  lemma {:induction false} ClashGrows(rows: seq<Row>, at: nat, end: nat, from: nat, mid: nat, log: seq<int>)
    requires at <= end <= |rows| && from <= mid <= |log|
    ensures Clash(rows[at..end], mid, log) ==> Clash(rows, from, log)
    ensures Clash(rows, from, log[..mid]) ==> Clash(rows, from, log)
  {
    PartKeys(rows, at, end);
    if Clash(rows, from, log[..mid]) {
      var i :| from <= i < mid && log[..mid][i] in Explicit(rows);
      assert log[i] in Explicit(rows);
    }
  }

  lemma {:induction false} CountOn(mode: OnConflict, before: Db, rows: seq<Row>, at: nat, end: nat, total: nat,
                                   between: Db, count: nat, db: Db)
    requires at <= end <= |rows|
    requires Did(mode, before.table, before.log, rows[..at], between)
    requires Did(mode, between.table, between.log, rows[at..end], db)
    requires Count(before, rows, total, between)
    requires count == |db.table| - |between.table| + |Clashes(rows[at..end], db.log[|between.log|..])|
    ensures Count(before, rows, total + count, db)
  {
    var part, given := rows[at..end], db.log[|between.log|..];
    ClashGrows(rows, at, end, |before.log|, |between.log|, db.log);
    if Clashes(part, given) != {} {
      var k := ElementOf(Clashes(part, given));
    }
  }

  lemma {:induction false} ChunkFailed(d: Dialect, mode: OnConflict, before: Db, rows: seq<Row>, at: nat, end: nat,
                                       total: nat, between: Db, db: Db)
    requires at <= end <= |rows| && Going(mode, before, rows, at, total, between)
    ensures !mode.Error? && Clash(rows[at..end], |between.log|, db.log) ==>
      Clash(rows, |before.log|, db.log)
    ensures (mode.Error? && exists n :: 0 <= n < end - at
                              && Refused(d, Error, between.table, between.log, rows[at..end], n, db)) ==>
      (exists n :: 0 <= n < |rows| && Refused(d, Error, before.table, before.log, rows, n, db))
  {
    hide Refused, Clash, Count;
    if Clash(rows[at..end], |between.log|, db.log) {
      ClashEarlier(rows, at, end, |before.log|, |between.log|, db.log);
    }
    if mode.Error?
       && exists n :: 0 <= n < end - at && Refused(d, Error, between.table, between.log, rows[at..end], n, db) {
      var n :| 0 <= n < end - at && Refused(d, Error, between.table, between.log, rows[at..end], n, db);
      RefusedInPart(d, before, rows, at, end, between, n, db);
    }
  }

  lemma {:induction false} ClashEarlier(rows: seq<Row>, at: nat, end: nat, from: nat, mid: nat, log: seq<int>)
    requires at <= end <= |rows| && from <= mid && Clash(rows[at..end], mid, log)
    ensures Clash(rows, from, log)
  {
    PartKeys(rows, at, end);
  }

  lemma {:induction false} RefusedInPart(d: Dialect, before: Db, rows: seq<Row>, at: nat, end: nat, between: Db,
                                         n: nat, db: Db)
    requires at <= end <= |rows| && Did(Error, before.table, before.log, rows[..at], between)
    requires n < end - at && Refused(d, Error, between.table, between.log, rows[at..end], n, db)
    ensures Refused(d, Error, before.table, before.log, rows, at + n, db)
  {
    hide Did;
    DidBoth(Error, before, rows[..at], between, rows[at..end][..n], db);
    assert rows[..at + n] == rows[..at] + rows[at..end][..n];
  }

  lemma {:induction false} PlainClashes(t: Table, rows: seq<Row>, given: seq<int>)
    requires Unkeyed(rows) <= |given| && Applies(Error, t, rows, given)
    ensures Clashes(rows, given) == {}
    ensures |rows| == |Applied(Error, t, rows, given)| - |t|
  {
    PlainCounts(t, rows, given);
    NoClash(t, rows, given);
  }

  lemma {:induction false} NoClash(t: Table, rows: seq<Row>, given: seq<int>)
    requires Unkeyed(rows) <= |given| && Applies(Error, t, rows, given)
    ensures Clashes(rows, given) == {}
  {
    if rows != [] {
      var before := rows[..|rows| - 1];
      NoClash(t, before, given);
      KeysAfter(Error, t, before, given);
      OneMoreKey(given, Unkeyed(before));
    }
  }
}
