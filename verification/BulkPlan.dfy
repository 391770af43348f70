/**
 What a chunk is turned into before it is sent: duplicates skipped or merged, and batches
 of rows with the same columns (monitor_app/db/bulk.py).  Each keeps the meaning of the
 rows one by one.

 Which rows are sent depends on the keys found in the table beforehand.  Updates can go
 before inserts because no key occurs twice in a merged chunk, and a batch can be one
 statement because its rows have the columns of the first.
 */
module BulkPlan {
  import opened Options
  import opened BulkSpec

  // ------------------------------------------------------------------------ ignoring

  /** The rows `insert_ignore` sends, given the keys that are in the table already. */
  function FreshRows(existing: set<int>, rows: seq<Row>): seq<Row> {
    if rows == [] then []
    else
      var before, r := FreshRows(existing, rows[..|rows| - 1]), rows[|rows| - 1];
      if r.key.Some? && r.key.value in existing + Explicit(before) then before else before + [r]
  }

  lemma {:induction false} Appended(rows: seq<Row>, r: Row)
    ensures (rows + [r])[..|rows + [r]| - 1] == rows
    ensures Unkeyed(rows + [r]) == Unkeyed(rows) + if r.key.None? then 1 else 0
    ensures Explicit(rows + [r]) == Explicit(rows) + if r.key.Some? then {r.key.value} else {}
  {
    assert (rows + [r])[..|rows + [r]| - 1] == rows;
  }

  lemma {:induction false} FreshKeys(existing: set<int>, rows: seq<Row>)
    ensures var f := FreshRows(existing, rows);
      Unkeyed(f) == Unkeyed(rows) && Explicit(f) == Explicit(rows) - existing
    ensures |FreshRows(existing, rows)| == Unkeyed(rows) + |Explicit(rows) - existing|
  {
    if rows != [] {
      var before, r := rows[..|rows| - 1], rows[|rows| - 1];
      FreshKeys(existing, before);
      Appended(FreshRows(existing, before), r);
      if r.key.Some? {
        var was, now := Explicit(before) - existing, Explicit(rows) - existing;
        if r.key.value in existing + Explicit(FreshRows(existing, before)) {
          assert now == was;
        } else {
          assert now == was + {r.key.value} && r.key.value !in was;
        }
      }
    }
  }

  /** Skipping what is in the table or came before means the same as `Ignore` row by row. */
  lemma {:induction false} FreshMeansIgnore(t: Table, existing: set<int>, rows: seq<Row>, given: seq<int>)
    requires existing == t.Keys * Explicit(rows)
    requires Unkeyed(FreshRows(existing, rows)) <= |given|
    ensures Unkeyed(rows) <= |given|
    ensures Applied(Ignore, t, FreshRows(existing, rows), given) == Applied(Ignore, t, rows, given)
    ensures Applies(Ignore, t, FreshRows(existing, rows), given) == Applies(Ignore, t, rows, given)
  {
    FreshKeys(existing, rows);
    FreshMeansIgnoreFrom(t, existing, rows, given);
  }

  lemma {:induction false} FreshMeansIgnoreFrom(t: Table, existing: set<int>, rows: seq<Row>, given: seq<int>)
    requires existing <= t.Keys
    requires Unkeyed(FreshRows(existing, rows)) == Unkeyed(rows) <= |given|
    ensures Applied(Ignore, t, FreshRows(existing, rows), given) == Applied(Ignore, t, rows, given)
    ensures Applies(Ignore, t, FreshRows(existing, rows), given) == Applies(Ignore, t, rows, given)
  {
    hide FreshRows, Explicit, FirstKeys, Applied, Applies, Unkeyed;
    if rows == [] {
      FreshNothing(existing);
    } else {
      var before, r := rows[..|rows| - 1], rows[|rows| - 1];
      assert rows == before + [r];
      FreshKeys(existing, before);
      Appended(before, r);
      FreshLast(existing, before, r);
      FreshMeansIgnoreFrom(t, existing, before, given);
      var sent := FreshRows(existing, before);
      if r.key.Some? && r.key.value in existing + Explicit(sent) {
        KeysAfter(Ignore, t, sent, given);
        SkipOne(t, before, r, given);
      } else {
        SameWithOneMore(t, sent, before, r, given);
      }
    }
  }

  /** A row whose key is there already is skipped. */
  lemma {:induction false} SkipOne(t: Table, before: seq<Row>, r: Row, given: seq<int>)
    requires Unkeyed(before) <= |given| && r.key.Some? && r.key.value in Applied(Ignore, t, before, given)
    ensures Unkeyed(before + [r]) == Unkeyed(before)
    ensures Applied(Ignore, t, before + [r], given) == Applied(Ignore, t, before, given)
    ensures Applies(Ignore, t, before + [r], given) == Applies(Ignore, t, before, given)
  {
    Appended(before, r);
  }

  lemma {:induction false} SameWithOneMore(t: Table, a: seq<Row>, b: seq<Row>, r: Row, given: seq<int>)
    requires Unkeyed(a) == Unkeyed(b) && Unkeyed(a) + (if r.key.None? then 1 else 0) <= |given|
    requires Applied(Ignore, t, a, given) == Applied(Ignore, t, b, given)
    requires Applies(Ignore, t, a, given) == Applies(Ignore, t, b, given)
    ensures Unkeyed(a + [r]) == Unkeyed(b + [r]) <= |given|
    ensures Applied(Ignore, t, a + [r], given) == Applied(Ignore, t, b + [r], given)
    ensures Applies(Ignore, t, a + [r], given) == Applies(Ignore, t, b + [r], given)
  {
    Appended(a, r);
    Appended(b, r);
  }

  lemma {:induction false} FreshNothing(existing: set<int>)
    ensures FreshRows(existing, []) == []
  {
  }

  lemma {:induction false} FreshLast(existing: set<int>, before: seq<Row>, r: Row)
    ensures FreshRows(existing, before + [r])
      == if r.key.Some? && r.key.value in existing + Explicit(FreshRows(existing, before))
         then FreshRows(existing, before) else FreshRows(existing, before) + [r]
  {
    assert (before + [r])[..|before|] == before;
  }

  // ------------------------------------------------------------------------- merging

  function IndexOf(rows: seq<Row>, k: int): (i: nat)
    requires k in Explicit(rows)
    ensures i < |rows| && rows[i].key == Some(k)
  {
    if rows[|rows| - 1].key == Some(k) && k !in Explicit(rows[..|rows| - 1]) then |rows| - 1
    else IndexOf(rows[..|rows| - 1], k)
  }

  function MergedAt(rows: seq<Row>, i: nat, cells: Cells): seq<Row>
    requires i < |rows|
  {
    rows[i := rows[i].(cells := rows[i].cells + cells)]
  }

  /** The rows `insert_update` sends: one for each key, where the key came first. */
  function Merged(rows: seq<Row>): seq<Row> {
    if rows == [] then []
    else
      var before, r := Merged(rows[..|rows| - 1]), rows[|rows| - 1];
      if r.key.Some? && r.key.value in Explicit(before)
      then MergedAt(before, IndexOf(before, r.key.value), r.cells)
      else before + [r]
  }

  lemma {:induction false} MergedAtKeys(rows: seq<Row>, i: nat, cells: Cells)
    requires i < |rows|
    ensures Unkeyed(MergedAt(rows, i, cells)) == Unkeyed(rows)
    ensures Explicit(MergedAt(rows, i, cells)) == Explicit(rows)
  {
    var last := |rows| - 1;
    var m := MergedAt(rows, i, cells);
    if i < last {
      assert m[..last] == MergedAt(rows[..last], i, cells);
      MergedAtKeys(rows[..last], i, cells);
    } else {
      assert m[..last] == rows[..last];
    }
  }

  /** Each key once, the same keys, and the rows without a key as they were. */
  lemma {:induction false} MergedKeys(rows: seq<Row>)
    ensures var m := Merged(rows);
      && Unkeyed(m) == Unkeyed(rows) && Explicit(m) == Explicit(rows)
      && (forall i, j :: 0 <= i < j < |m| && m[i].key.Some? ==> m[i].key != m[j].key)
  {
    if rows != [] {
      var before, r := rows[..|rows| - 1], rows[|rows| - 1];
      MergedKeys(before);
      var m := Merged(before);
      if r.key.Some? && r.key.value in Explicit(m) {
        MergedAtKeys(m, IndexOf(m, r.key.value), r.cells);
      } else {
        Appended(m, r);
        forall i | 0 <= i < |m| && m[i].key.Some? ensures m[i].key.value in Explicit(m) {
          InExplicit(m, i);
        }
      }
    }
  }

  lemma {:induction false} InExplicit(rows: seq<Row>, i: nat)
    requires i < |rows| && rows[i].key.Some?
    ensures rows[i].key.value in Explicit(rows)
  {
    if i < |rows| - 1 {
      InExplicit(rows[..|rows| - 1], i);
    }
  }

  lemma {:induction false} UpsertTwice(t: Table, k: int, a: Cells, b: Cells)
    ensures One(Update, One(Update, t, k, a), k, b) == One(Update, t, k, a + b)
  {
    if k in t {
      assert t[k] + a + b == t[k] + (a + b);
    }
  }

  lemma {:induction false} UpsertsCommute(t: Table, k: int, a: Cells, l: int, b: Cells)
    requires k != l
    ensures One(Update, One(Update, t, k, a), l, b) == One(Update, One(Update, t, l, b), k, a)
  {
  }

  /** Writing a key now or after rows that do not touch it is the same. */
  lemma {:induction false} MergeEarlier(t: Table, rows: seq<Row>, i: nat, cells: Cells, given: seq<int>)
    requires i < |rows| && rows[i].key.Some? && Unkeyed(rows) <= |given|
    requires forall j :: 0 <= j < |rows| && rows[j].key == rows[i].key ==> j == i
    requires Applies(Update, t, rows, given)
    ensures var k, m := rows[i].key.value, MergedAt(rows, i, cells);
      && Unkeyed(m) == Unkeyed(rows) && Applies(Update, t, m, given)
      && Applied(Update, t, m, given) == One(Update, Applied(Update, t, rows, given), k, cells)
  {
    var k, m, last := rows[i].key.value, MergedAt(rows, i, cells), |rows| - 1;
    MergedAtKeys(rows, i, cells);
    if i == last {
      assert m[..last] == rows[..last];
      UpsertTwice(Applied(Update, t, rows[..last], given), k, rows[last].cells, cells);
    } else {
      var before := rows[..last];
      assert m[..last] == MergedAt(before, i, cells);
      InExplicit(before, i);
      KeysAfter(Update, t, before, given);
      UpsertsCommute(Applied(Update, t, before, given), k, cells, LastKey(rows, given), rows[last].cells);
      MergeEarlier(t, before, i, cells, given);
    }
  }

  /** The same seen from the merged rows, whose keys are those that were given out. */
  lemma {:induction false} MergedApplies(t: Table, rows: seq<Row>, i: nat, cells: Cells, given: seq<int>)
    requires i < |rows| && rows[i].key.Some? && Unkeyed(rows) <= |given|
    requires forall j :: 0 <= j < |rows| && rows[j].key == rows[i].key ==> j == i
    ensures var m := MergedAt(rows, i, cells);
      Unkeyed(m) == Unkeyed(rows) && (Applies(Update, t, m, given) ==> Applies(Update, t, rows, given))
  {
    var m, last := MergedAt(rows, i, cells), |rows| - 1;
    MergedAtKeys(rows, i, cells);
    if i == last {
      assert m[..last] == rows[..last];
    } else {
      var before := rows[..last];
      assert m[..last] == MergedAt(before, i, cells);
      MergedApplies(t, before, i, cells, given);
      MergedAtKeys(before, i, cells);
      KeysAfter(Update, t, before, given);
      KeysAfter(Update, t, m[..last], given);
    }
  }

  /** Merging the rows of a chunk means the same as upserting them one by one. */
  lemma {:induction false} MergedMeansUpdate(t: Table, rows: seq<Row>, given: seq<int>)
    requires Unkeyed(Merged(rows)) <= |given| && Applies(Update, t, Merged(rows), given)
    ensures Unkeyed(rows) <= |given| && Applies(Update, t, rows, given)
    ensures Applied(Update, t, Merged(rows), given) == Applied(Update, t, rows, given)
  {
    MergedKeys(rows);
    if rows != [] {
      var before, r := rows[..|rows| - 1], rows[|rows| - 1];
      MergedKeys(before);
      var m := Merged(before);
      if r.key.Some? && r.key.value in Explicit(m) {
        var i := IndexOf(m, r.key.value);
        MergedApplies(t, m, i, r.cells, given);
        MergeEarlier(t, m, i, r.cells, given);
      } else {
        Appended(m, r);
      }
      MergedMeansUpdate(t, before, given);
    }
  }

  /** How many of the rows `insert_update` counts as new. */
  function CountNew(existing: set<int>, rows: seq<Row>): nat {
    if rows == [] then 0
    else
      var r := rows[|rows| - 1];
      CountNew(existing, rows[..|rows| - 1]) + if r.key.None? || r.key.value !in existing then 1 else 0
  }

  lemma {:induction false} CountIsKeys(existing: set<int>, rows: seq<Row>)
    requires forall i, j :: 0 <= i < j < |rows| && rows[i].key.Some? ==> rows[i].key != rows[j].key
    ensures CountNew(existing, rows) == Unkeyed(rows) + |Explicit(rows) - existing|
  {
    if rows != [] {
      var before, r := rows[..|rows| - 1], rows[|rows| - 1];
      CountIsKeys(existing, before);
      if r.key.Some? {
        NotExplicit(before, r.key.value);
        if r.key.value in existing {
          assert Explicit(rows) - existing == Explicit(before) - existing;
        } else {
          assert Explicit(rows) - existing == Explicit(before) - existing + {r.key.value};
        }
      }
    }
  }

  lemma {:induction false} NotExplicit(rows: seq<Row>, k: int)
    requires forall i :: 0 <= i < |rows| ==> rows[i].key != Some(k)
    ensures k !in Explicit(rows)
  {
    if rows != [] {
      NotExplicit(rows[..|rows| - 1], k);
    }
  }

  // ---------------------------------------------------------------------- counting

  /** Keys the database gave out although a row of the chunk brings them along as well. */
  function Clashes(rows: seq<Row>, given: seq<int>): set<int>
    requires Unkeyed(rows) <= |given|
  {
    Explicit(rows) * FirstKeys(given, Unkeyed(rows))
  }

  /**
   The count both modes report, and how far it is from the growth of the table: it is
   exact if and only if no key that was given out is also the key of a row of the chunk.
   */
  lemma {:induction false} CountAndGrowth(mode: OnConflict, t: Table, rows: seq<Row>, given: seq<int>)
    requires Unkeyed(rows) <= |given| && Applies(mode, t, rows, given)
    ensures Unkeyed(rows) + |Explicit(rows) - t.Keys|
         == |Applied(mode, t, rows, given)| - |t| + |Clashes(rows, given) - t.Keys|
    ensures Clashes(rows, given) - t.Keys == Clashes(rows, given)
  {
    hide Applied, Applies, Explicit, Unkeyed, FirstKeys;
    KeysAfter(mode, t, rows, given);
    GivenAreNew(mode, t, rows, given);
    var u := Applied(mode, t, rows, given);
    Sizes(t.Keys, Explicit(rows), FirstKeys(given, Unkeyed(rows)), u.Keys);
    assert |u| == |u.Keys| && |t| == |t.Keys|;
  }

  lemma {:induction false} Sizes(t: set<int>, explicit: set<int>, handed: set<int>, u: set<int>)
    requires t !! handed && u == t + explicit + handed
    ensures explicit * handed - t == explicit * handed
    ensures |handed| + |explicit - t| == |u| - |t| + |explicit * handed|
  {
    var a := explicit - t;
    assert t !! (a + handed) && u == t + (a + handed);
    assert a * handed == explicit * handed;
  }

  lemma {:induction false} GivenAreNew(mode: OnConflict, t: Table, rows: seq<Row>, given: seq<int>)
    requires Unkeyed(rows) <= |given| && Applies(mode, t, rows, given)
    ensures FirstKeys(given, Unkeyed(rows)) !! t.Keys
    ensures |FirstKeys(given, Unkeyed(rows))| == Unkeyed(rows)
  {
    hide FirstKeys, Explicit, Applied, Applies;
    if rows == [] {
      OneMoreKey(given, 0);
    } else {
      var before := rows[..|rows| - 1];
      LastIsNew(mode, t, rows, given);
      GivenAreNew(mode, t, before, given);
      KeysAfter(mode, t, before, given);
      OneMoreKey(given, Unkeyed(before));
      if rows[|rows| - 1].key.None? {
        OneMoreElement(t.Keys, Explicit(before), FirstKeys(given, Unkeyed(before)), given[Unkeyed(before)]);
      }
    }
  }

  lemma {:induction false} LastIsNew(mode: OnConflict, t: Table, rows: seq<Row>, given: seq<int>)
    requires rows != [] && Unkeyed(rows) <= |given| && Applies(mode, t, rows, given)
    ensures var before := rows[..|rows| - 1];
      && Applies(mode, t, before, given)
      && (rows[|rows| - 1].key.None? ==> given[Unkeyed(before)] !in Applied(mode, t, before, given))
  {
  }

  lemma {:induction false} OneMoreElement(t: set<int>, explicit: set<int>, handed: set<int>, g: int)
    requires handed !! t && g !in t + explicit + handed
    ensures (handed + {g}) !! t && |handed + {g}| == |handed| + 1
  {
  }

  lemma {:induction false} OneMoreKey(given: seq<int>, n: nat)
    requires n <= |given|
    ensures FirstKeys(given, 0) == {}
    ensures n < |given| ==> FirstKeys(given, n + 1) == FirstKeys(given, n) + {given[n]}
  {
  }

  // ---------------------------------------------------------------- rows with one shape

  /** A batch of rows of one shape does to the table what the rows do one by one. */
  lemma {:induction false} BatchMeans(d: Dialect, s: Statement, db: Db, run: seq<Row>)
    requires forall i :: 0 <= i < |run| ==> run[i].cells.Keys == s.columns
    requires Batch(d, s, db, run).Some?
    ensures var u := Batch(d, s, db, run).value;
      && |u.log| == |db.log| + Unkeyed(run) && u.log[..|db.log|] == db.log
      && Applies(ModeOf(s), db.table, run, u.log[|db.log|..])
      && u.table == Applied(ModeOf(s), db.table, run, u.log[|db.log|..])
  {
    hide Step, FreeKey, One;
    if run != [] {
      var before, r := run[..|run| - 1], run[|run| - 1];
      BatchMeans(d, s, db, before);
      var b := Batch(d, s, db, before).value;
      var given := b.log[|db.log|..];
      StepMeans(d, s, b, r);
      if r.key.None? {
        var k := FreeKey(d, b);
        OnlyItsKeys(ModeOf(s), db.table, before, given, [k]);
        assert (b.log + [k])[|db.log|..] == given + [k];
      }
    }
  }

  lemma {:induction false} StepMeans(d: Dialect, s: Statement, db: Db, r: Row)
    requires r.cells.Keys == s.columns && Step(d, s, db, r).Some?
    ensures var u := Step(d, s, db, r).value; var k := if r.key.Some? then r.key.value else FreeKey(d, db);
      && (s.Insert? || r.key.None? ==> k !in db.table)
      && u.table == One(ModeOf(s), db.table, k, r.cells)
      && u.log == if r.key.Some? then db.log else db.log + [k]
  {
    assert (map c | c in s.columns :: r.cells[c]) == r.cells;
  }

  /**
   Batches never fail on databases whose free key is beyond all keys, nor on PostgreSQL
   while the sequence is ahead.
   */
  lemma {:induction false} BatchSucceeds(d: Dialect, s: Statement, db: Db, run: seq<Row>)
    requires forall i :: 0 <= i < |run| ==> run[i].cells.Keys == s.columns
    requires !s.Insert? || forall i :: 0 <= i < |run| ==> run[i].key.None?
    requires d.Postgres? && !(forall i :: 0 <= i < |run| ==> run[i].key.Some?) ==>
      Ahead(db.sequence, db.table) && forall i :: 0 <= i < |run| ==> run[i].key.None?
    ensures Batch(d, s, db, run).Some?
  {
    if run != [] {
      BatchSucceeds(d, s, db, run[..|run| - 1]);
      if d.Postgres? && run[|run| - 1].key.None? {
        AutoKeepsAhead(d, s, db, run[..|run| - 1]);
      }
    }
  }

  /** Rows without a key leave the sequence ahead of all keys. */
  lemma {:induction false} AutoKeepsAhead(d: Dialect, s: Statement, db: Db, run: seq<Row>)
    requires d.Postgres? && Ahead(db.sequence, db.table)
    requires forall i :: 0 <= i < |run| ==> run[i].key.None?
    ensures Batch(d, s, db, run).Some? ==>
      Ahead(Batch(d, s, db, run).value.sequence, Batch(d, s, db, run).value.table)
  {
    if run != [] {
      AutoKeepsAhead(d, s, db, run[..|run| - 1]);
    }
  }

  /** Whatever has become of the sequence before, sending a batch keeps the account of it. */
  lemma {:induction false} BatchMoves(s: Statement, was: Sequence, from: Table, pending: bool, db: Db, run: seq<Row>)
    requires forall i :: 0 <= i < |run| ==> run[i].key.Some? == pending
    requires Batch(Postgres, s, db, run).Some? && Moved(was, from, pending, db.sequence, db.table)
    ensures var u := Batch(Postgres, s, db, run).value; Moved(was, from, pending, u.sequence, u.table)
  {
    hide Moved, NextValue, One;
    if run != [] {
      var before, r := run[..|run| - 1], run[|run| - 1];
      BatchMoves(s, was, from, pending, db, before);
      var b := Batch(Postgres, s, db, before).value;
      var u := Step(Postgres, s, b, r).value;
      if pending {
        assert u.table.Keys == b.table.Keys + {r.key.value} by {
          OneKeys(ModeOf(s), b.table, r.key.value, map c | c in s.columns :: r.cells[c]);
        }
        MovedWithKey(was, from, b.sequence, b.table, u.table);
      } else {
        MovedByValue(was, from, b.sequence, b.table, map c | c in s.columns :: r.cells[c]);
      }
    }
  }

  lemma {:induction false} OneKeys(mode: OnConflict, t: Table, k: int, cells: Cells)
    ensures One(mode, t, k, cells).Keys == t.Keys + {k}
  {
  }

  // ------------------------------------------------------- the strategies against each other

  /** If every key was new, the modes do not differ. */
  lemma {:induction false} PlainIsAny(mode: OnConflict, t: Table, rows: seq<Row>, given: seq<int>)
    requires Unkeyed(rows) <= |given| && Applies(Error, t, rows, given)
    ensures Applies(mode, t, rows, given) && Applied(mode, t, rows, given) == Applied(Error, t, rows, given)
  {
    if rows != [] {
      PlainIsAny(mode, t, rows[..|rows| - 1], given);
    }
  }

  lemma {:induction false} PlainCounts(t: Table, rows: seq<Row>, given: seq<int>)
    requires Unkeyed(rows) <= |given| && Applies(Error, t, rows, given)
    ensures |Applied(Error, t, rows, given)| == |t| + |rows|
  {
    if rows != [] {
      PlainCounts(t, rows[..|rows| - 1], given);
    }
  }

  /** The rows of a run that the strategy without UPSERT updates, and those it inserts. */
  function ToUpdate(existing: set<int>, run: seq<Row>): seq<Row> {
    if run == [] then []
    else
      var before, r := ToUpdate(existing, run[..|run| - 1]), run[|run| - 1];
      if r.key.Some? && r.key.value in existing then before + [r] else before
  }

  function ToInsert(existing: set<int>, run: seq<Row>): seq<Row> {
    if run == [] then []
    else
      var before, r := ToInsert(existing, run[..|run| - 1]), run[|run| - 1];
      if r.key.Some? && r.key.value in existing then before else before + [r]
  }

  predicate EachKeyOnce(rows: seq<Row>) {
    forall i, j :: 0 <= i < j < |rows| && rows[i].key.Some? ==> rows[i].key != rows[j].key
  }

  lemma {:induction false} UpdateKeys(existing: set<int>, run: seq<Row>)
    ensures Unkeyed(ToUpdate(existing, run)) == 0 && Explicit(ToUpdate(existing, run)) == Explicit(run) * existing
  {
    if run != [] {
      UpdateKeys(existing, run[..|run| - 1]);
      Appended(ToUpdate(existing, run[..|run| - 1]), run[|run| - 1]);
    }
  }

  lemma {:induction false} InsertKeys(existing: set<int>, run: seq<Row>)
    ensures Unkeyed(ToInsert(existing, run)) == Unkeyed(run)
    ensures Explicit(ToInsert(existing, run)) == Explicit(run) - existing
  {
    if run != [] {
      InsertKeys(existing, run[..|run| - 1]);
      Appended(ToInsert(existing, run[..|run| - 1]), run[|run| - 1]);
    }
  }

  lemma {:induction false} SplitKeys(existing: set<int>, run: seq<Row>)
    ensures Unkeyed(ToUpdate(existing, run)) == 0 && Unkeyed(ToInsert(existing, run)) == Unkeyed(run)
    ensures Explicit(ToUpdate(existing, run)) == Explicit(run) * existing
    ensures Explicit(ToInsert(existing, run)) == Explicit(run) - existing
  {
    UpdateKeys(existing, run);
    InsertKeys(existing, run);
  }

  /** Writing to a key that is there can go before rows that do not touch it. */
  lemma {:induction false} WriteFirst(t: Table, k: int, cells: Cells, rows: seq<Row>, given: seq<int>)
    requires k in t && k !in Explicit(rows) && Unkeyed(rows) <= |given|
    requires Applies(Update, One(Update, t, k, cells), rows, given)
    ensures Applies(Update, t, rows, given)
    ensures Applied(Update, One(Update, t, k, cells), rows, given)
         == One(Update, Applied(Update, t, rows, given), k, cells)
  {
    if rows != [] {
      var before := rows[..|rows| - 1];
      WriteFirst(t, k, cells, before, given);
      KeysAfter(Update, t, before, given);
      KeysAfter(Update, One(Update, t, k, cells), before, given);
      UpsertsCommute(Applied(Update, t, before, given), k, cells, LastKey(rows, given), rows[|rows| - 1].cells);
    }
  }

  /** First the updates, then the inserts: the same as the run in its order. */
  lemma {:induction false} UpdatesThenInserts(t: Table, existing: set<int>, run: seq<Row>, given: seq<int>)
    requires existing <= t.Keys && EachKeyOnce(run) && Unkeyed(ToInsert(existing, run)) <= |given|
    requires Unkeyed(ToUpdate(existing, run)) == 0
    requires Applies(Update, Applied(Update, t, ToUpdate(existing, run), []), ToInsert(existing, run), given)
    ensures Unkeyed(run) <= |given| && Applies(Update, t, run, given)
    ensures Applied(Update, Applied(Update, t, ToUpdate(existing, run), []), ToInsert(existing, run), given)
         == Applied(Update, t, run, given)
  {
    hide ToUpdate, ToInsert, Explicit, EachKeyOnce;
    SplitKeys(existing, run);
    if run == [] {
      SplitNothing(existing);
    } else {
      var before, r := run[..|run| - 1], run[|run| - 1];
      assert run == before + [r];
      OnceBefore(before, r);
      SplitLast(existing, before, r);
      SplitKeys(existing, before);
      if r.key.Some? && r.key.value in existing {
        UpdateLast(t, existing, before, r, given);
        UpdatesThenInserts(t, existing, before, given);
      } else {
        Appended(ToInsert(existing, before), r);
        UpdatesThenInserts(t, existing, before, given);
      }
    }
  }

  lemma {:induction false} OnceBefore(before: seq<Row>, r: Row)
    requires EachKeyOnce(before + [r])
    ensures EachKeyOnce(before)
  {
    assert forall i :: 0 <= i < |before| ==> (before + [r])[i] == before[i];
  }

  lemma {:induction false} SplitNothing(existing: set<int>)
    ensures ToUpdate(existing, []) == [] && ToInsert(existing, []) == []
  {
  }

  lemma {:induction false} SplitLast(existing: set<int>, before: seq<Row>, r: Row)
    ensures var there := r.key.Some? && r.key.value in existing;
      && ToUpdate(existing, before + [r])
        == (if there then ToUpdate(existing, before) + [r] else ToUpdate(existing, before))
      && ToInsert(existing, before + [r])
        == (if there then ToInsert(existing, before) else ToInsert(existing, before) + [r])
  {
    assert (before + [r])[..|before|] == before;
  }

  lemma {:induction false} UpdateLast(t: Table, existing: set<int>, before: seq<Row>, r: Row, given: seq<int>)
    requires existing <= t.Keys && EachKeyOnce(before + [r]) && r.key.Some? && r.key.value in existing
    requires var u, n := ToUpdate(existing, before), ToInsert(existing, before);
      && Unkeyed(u) == 0 && Unkeyed(u + [r]) == 0 && Unkeyed(n) <= |given|
      && Applies(Update, Applied(Update, t, u + [r], []), n, given)
    ensures var u, n := ToUpdate(existing, before), ToInsert(existing, before);
      && Applies(Update, Applied(Update, t, u, []), n, given)
      && Applied(Update, Applied(Update, t, u + [r], []), n, given)
         == One(Update, Applied(Update, Applied(Update, t, u, []), n, given), r.key.value, r.cells)
  {
    var u, n := ToUpdate(existing, before), ToInsert(existing, before);
    Appended(u, r);
    SplitKeys(existing, before);
    assert (before + [r])[|before|] == r;
    assert forall i :: 0 <= i < |before| ==> (before + [r])[i] == before[i];
    NotExplicit(before, r.key.value);
    KeysAfter(Update, t, u, []);
    WriteFirst(Applied(Update, t, u, []), r.key.value, r.cells, n, given);
  }
}
