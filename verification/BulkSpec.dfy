/**
 What bulk insertion means (monitor_app/db/bulk.py): the rows applied one by one to a
 table with a single integer key, and the steps the database takes for the statements the
 writer sends.

 Rows without a key get one from the database: `given` lists those keys in the order in
 which they are given out.  `Applied` is the table afterwards, and `Applies` says that every
 key was new where it had to be.  The last part follows the key sequence of PostgreSQL.
 */
module BulkSpec {
  import opened Options

  /** Cell values are only copied. */
  type CellValue = int
  type Cells = map<string, CellValue>
  type Table = map<int, Cells>

  /** The key column of a row as it is handed in. */
  datatype KeyCell = Absent | Null | Given(key: int)

  datatype Raw = Raw(key: KeyCell, cells: Cells)

  /** A row without a key gets one from the database. */
  datatype Row = Row(key: Option<int>, cells: Cells)

  datatype OnConflict = Error | Ignore | Update

  /** `prepare`: a key that is null is left to the database, like one that is absent. */
  function Prepared(raws: seq<Raw>): (rows: seq<Row>)
    ensures |rows| == |raws|
  {
    seq(|raws|, i requires 0 <= i < |raws| =>
      Row(if raws[i].key.Given? then Some(raws[i].key.key) else None, raws[i].cells))
  }

  // ------------------------------------------------------------------ row by row

  /** How many of the rows the database has to find a key for. */
  function Unkeyed(rows: seq<Row>): nat {
    if rows == [] then 0
    else Unkeyed(rows[..|rows| - 1]) + if rows[|rows| - 1].key.None? then 1 else 0
  }

  function Explicit(rows: seq<Row>): set<int> {
    if rows == [] then {}
    else
      var r := rows[|rows| - 1];
      Explicit(rows[..|rows| - 1]) + if r.key.Some? then {r.key.value} else {}
  }

  function One(mode: OnConflict, t: Table, k: int, cells: Cells): Table {
    if k !in t then t[k := cells]
    else match mode
      case Update => t[k := t[k] + cells]
      case Ignore => t
      case Error => t
  }

  /** The key of the last row: its own, or the next of those the database gives out. */
  function LastKey(rows: seq<Row>, given: seq<int>): int
    requires rows != [] && Unkeyed(rows) <= |given|
  {
    var r := rows[|rows| - 1];
    if r.key.Some? then r.key.value else given[Unkeyed(rows[..|rows| - 1])]
  }

  /** The rows applied one by one; `given` are the keys the database gives out, in order. */
  function Applied(mode: OnConflict, t: Table, rows: seq<Row>, given: seq<int>): Table
    requires Unkeyed(rows) <= |given|
  {
    if rows == [] then t
    else One(mode, Applied(mode, t, rows[..|rows| - 1], given), LastKey(rows, given), rows[|rows| - 1].cells)
  }

  /** Each key was new when it was given out; without `on_conflict` every key must be new. */
  predicate Applies(mode: OnConflict, t: Table, rows: seq<Row>, given: seq<int>)
    requires Unkeyed(rows) <= |given|
  {
    rows == [] ||
    (var before := rows[..|rows| - 1];
     Applies(mode, t, before, given)
     && (rows[|rows| - 1].key.None? || mode.Error? ==> LastKey(rows, given) !in Applied(mode, t, before, given)))
  }

  lemma {:induction false} UnkeyedConcat(a: seq<Row>, b: seq<Row>)
    ensures Unkeyed(a + b) == Unkeyed(a) + Unkeyed(b)
    ensures Explicit(a + b) == Explicit(a) + Explicit(b)
  {
    if b == [] {
      assert a + b == a;
    } else {
      assert (a + b)[..|a + b| - 1] == a + b[..|b| - 1];
      UnkeyedConcat(a, b[..|b| - 1]);
    }
  }

  /** Rows in two parts: the second goes on where the first ended. */
  lemma {:induction false} AppliedConcat(mode: OnConflict, t: Table, a: seq<Row>, b: seq<Row>, given: seq<int>)
    requires Unkeyed(a) + Unkeyed(b) <= |given|
    ensures Unkeyed(a + b) <= |given|
    ensures var u := Applied(mode, t, a, given); var later := given[Unkeyed(a)..];
      && Applied(mode, t, a + b, given) == Applied(mode, u, b, later)
      && (Applies(mode, t, a + b, given) <==> Applies(mode, t, a, given) && Applies(mode, u, b, later))
  {
    hide One;
    UnkeyedConcat(a, b);
    if b == [] {
      assert a + b == a;
    } else {
      var before := b[..|b| - 1];
      assert (a + b)[..|a + b| - 1] == a + before;
      UnkeyedConcat(a, before);
      AppliedConcat(mode, t, a, before, given);
    }
  }

  /** Keys given out later do not matter. */
  lemma {:induction false} OnlyItsKeys(mode: OnConflict, t: Table, rows: seq<Row>, given: seq<int>, more: seq<int>)
    requires Unkeyed(rows) <= |given|
    ensures Applied(mode, t, rows, given + more) == Applied(mode, t, rows, given)
    ensures Applies(mode, t, rows, given + more) == Applies(mode, t, rows, given)
  {
    if rows != [] {
      OnlyItsKeys(mode, t, rows[..|rows| - 1], given, more);
    }
  }

  /** Two parts with the keys each of them used. */
  lemma {:induction false} InTwoParts(mode: OnConflict, t: Table, a: seq<Row>, b: seq<Row>,
                                      forA: seq<int>, forB: seq<int>)
    requires Unkeyed(a) == |forA| && Unkeyed(b) == |forB|
    requires Applies(mode, t, a, forA) && Applies(mode, Applied(mode, t, a, forA), b, forB)
    ensures Unkeyed(a + b) == |forA + forB| && Applies(mode, t, a + b, forA + forB)
    ensures Applied(mode, t, a + b, forA + forB) == Applied(mode, Applied(mode, t, a, forA), b, forB)
  {
    UnkeyedConcat(a, b);
    AppliedConcat(mode, t, a, b, forA + forB);
    OnlyItsKeys(mode, t, a, forA, forB);
    assert (forA + forB)[|forA|..] == forB;
  }

  /** The first keys that were given out. */
  function FirstKeys(given: seq<int>, n: nat): set<int>
    requires n <= |given|
  {
    set i | 0 <= i < n :: given[i]
  }

  /** Which keys the table holds afterwards. */
  lemma {:induction false} KeysAfter(mode: OnConflict, t: Table, rows: seq<Row>, given: seq<int>)
    requires Unkeyed(rows) <= |given|
    ensures Applied(mode, t, rows, given).Keys
         == t.Keys + Explicit(rows) + FirstKeys(given, Unkeyed(rows))
  {
    if rows != [] {
      KeysAfter(mode, t, rows[..|rows| - 1], given);
    }
  }

  // ---------------------------------------------------------------------- resending

  predicate AllKeyed(rows: seq<Row>) {
    forall i :: 0 <= i < |rows| ==> rows[i].key.Some?
  }

  lemma {:induction false} KeyedHasNoUnkeyed(rows: seq<Row>)
    requires AllKeyed(rows)
    ensures Unkeyed(rows) == 0
  {
    if rows != [] {
      KeyedHasNoUnkeyed(rows[..|rows| - 1]);
    }
  }

  /** Rows whose keys are all there are skipped. */
  lemma {:induction false} SkipsWhatIsThere(t: Table, rows: seq<Row>)
    requires AllKeyed(rows) && Unkeyed(rows) == 0 && Explicit(rows) <= t.Keys
    ensures Applied(Ignore, t, rows, []) == t
  {
    if rows != [] {
      KeyedHasNoUnkeyed(rows[..|rows| - 1]);
      SkipsWhatIsThere(t, rows[..|rows| - 1]);
    }
  }

  /** What the last row with this key and column says, if there is one. */
  function LastValue(rows: seq<Row>, k: int, c: string): Option<CellValue> {
    if rows == [] then None
    else
      var r := rows[|rows| - 1];
      if r.key == Some(k) && c in r.cells then Some(r.cells[c]) else LastValue(rows[..|rows| - 1], k, c)
  }

  /** Upserting: for each key and column the last row that says something wins. */
  lemma {:induction false} LastOneWins(t: Table, rows: seq<Row>, k: int, c: string)
    requires AllKeyed(rows) && Unkeyed(rows) == 0
    ensures Applied(Update, t, rows, []).Keys == t.Keys + Explicit(rows)
    ensures var u := Applied(Update, t, rows, []);
      k in u ==>
        && (c in u[k] <==> LastValue(rows, k, c).Some? || (k in t && c in t[k]))
        && (c in u[k] ==> u[k][c] == if LastValue(rows, k, c).Some? then LastValue(rows, k, c).value else t[k][c])
    ensures k !in Explicit(rows) ==> LastValue(rows, k, c).None?
  {
    if rows != [] {
      var before := rows[..|rows| - 1];
      KeyedHasNoUnkeyed(before);
      LastOneWins(t, before, k, c);
    }
  }

  /** Resending a batch whose rows all have keys changes nothing. */
  lemma {:induction false} ResendingChangesNothing(mode: OnConflict, t: Table, rows: seq<Row>)
    requires !mode.Error? && AllKeyed(rows)
    ensures Unkeyed(rows) == 0
    ensures var u := Applied(mode, t, rows, []); Applied(mode, u, rows, []) == u
  {
    KeyedHasNoUnkeyed(rows);
    var u := Applied(mode, t, rows, []);
    KeysAfter(mode, t, rows, []);
    if mode.Ignore? {
      SkipsWhatIsThere(u, rows);
    } else {
      var v := Applied(Update, u, rows, []);
      KeysAfter(Update, u, rows, []);
      forall k | k in u ensures v[k] == u[k] {
        forall c ensures c in v[k] <==> c in u[k] {
          LastOneWins(t, rows, k, c);
          LastOneWins(u, rows, k, c);
        }
        forall c | c in u[k] ensures v[k][c] == u[k][c] {
          LastOneWins(t, rows, k, c);
          LastOneWins(u, rows, k, c);
        }
        assert v[k] == u[k];
      }
    }
  }

  // ------------------------------------------------------- the key sequence (PostgreSQL)

  datatype Sequence = Sequence(last: int, called: bool)

  function NextValue(s: Sequence): int {
    if s.called then s.last + 1 else s.last
  }

  /** `GREATEST(MAX(key), 0)`, 0 for an empty table. */
  function Top(t: Table): (m: int)
    ensures m >= 0 && (m == 0 || m in t) && forall k :: k in t ==> k <= m
  {
    TopExists(t.Keys);
    var m :| m in t.Keys + {0} && 0 <= m && forall k :: k in t.Keys ==> k <= m;
    m
  }

  lemma {:induction false} TopExists(keys: set<int>)
    ensures exists m :: m in keys + {0} && 0 <= m && forall k :: k in keys ==> k <= m
    decreases |keys|
  {
    assert 0 in keys + {0};
    if x :| x in keys {
      var rest := keys - {x};
      TopExists(rest);
      var m :| m in rest + {0} && 0 <= m && forall k :: k in rest ==> k <= m;
      var n := if x > m then x else m;
      assert n in keys + {0};
      assert forall k :: k in keys ==> k in rest || k == x;
    }
  }

  /** `advance_sequences`: to the largest of the keys and of what was given out already. */
  function Advanced(s: Sequence, t: Table): Sequence {
    var top := if s.called && s.last > Top(t) then s.last else Top(t);
    Sequence(if top < 1 then 1 else top, top >= 1)
  }

  predicate Ahead(s: Sequence, t: Table) {
    forall k :: k in t ==> k < NextValue(s)
  }

  /** After `advance_sequences` the next value is larger than every key, whatever was before. */
  lemma {:induction false} AdvancedIsAhead(s: Sequence, t: Table)
    ensures Ahead(Advanced(s, t), t) && NextValue(Advanced(s, t)) >= 1
    ensures Advanced(Advanced(s, t), t) == Advanced(s, t)
  {
  }

  /**
   It never takes a sequence back that has given out a value.  A sequence that has not is
   taken back exactly if it was to start above the largest key.
   */
  lemma {:induction false} AdvancesForward(s: Sequence, t: Table)
    ensures NextValue(Advanced(s, t)) >= NextValue(s) <==> s.called || s.last <= Top(t) + 1
  {
  }

  /** It has given out a value, or is at its lowest: it will not be taken back. */
  predicate Steady(s: Sequence) {
    s.called || s.last <= 1
  }

  /**
   What becomes of a sequence `was` and a table `from` while rows are inserted; `pending`
   says that rows with keys were sent since the sequence was last advanced.  A steady one
   only moves forward.  One that is not is still untouched, or has given out a value, or
   has been set to the largest key.
   */
  predicate Moved(was: Sequence, from: Table, pending: bool, s: Sequence, t: Table) {
    if Steady(was) then Steady(s) && NextValue(s) >= NextValue(was)
    else
      || (s == was && (!pending ==> t == from))
      || (s.called && was.last <= s.last && was.last <= Top(t))
      || (1 <= NextValue(s) <= Top(t) + 1 && (pending || NextValue(s) == Top(t) + 1))
  }

  lemma {:induction false} MovedAdvances(was: Sequence, from: Table, pending: bool, s: Sequence, t: Table)
    requires Moved(was, from, pending, s, t)
    ensures pending ==> Moved(was, from, false, Advanced(s, t), t)
  {
  }

  lemma {:induction false} MovedWithKey(was: Sequence, from: Table, s: Sequence, t: Table, u: Table)
    requires Moved(was, from, true, s, t) && t.Keys <= u.Keys
    ensures Moved(was, from, true, s, u)
  {
    assert Top(t) <= Top(u);
  }

  lemma {:induction false} MovedByValue(was: Sequence, from: Table, s: Sequence, t: Table, cells: Cells)
    requires Moved(was, from, false, s, t)
    ensures Moved(was, from, false, Sequence(NextValue(s), true), t[NextValue(s) := cells])
  {
    var k := NextValue(s);
    var u := t[k := cells];
    assert k in u;
    assert Top(t) == 0 || Top(t) in u;
  }

  /**
   In the end, it was taken back exactly if it had not given out a value and was to start
   beyond what follows the largest key, and something was sent; then it stands right
   behind that key.
   */
  lemma {:induction false} MovedBackIff(was: Sequence, from: Table, s: Sequence, t: Table)
    requires Moved(was, from, false, s, t)
    ensures NextValue(s) < NextValue(was) <==> !Steady(was) && was.last > Top(t) + 1 && !(s == was && t == from)
    ensures NextValue(s) < NextValue(was) ==> NextValue(s) == Top(t) + 1
  {
  }

  // --------------------------------------------------------------- the database's steps

  datatype Dialect = Postgres | MySql | Sqlite | OldSqlite

  /** `log` are the keys given out so far. */
  datatype Db = Db(table: Table, sequence: Sequence, log: seq<int>)

  /** A statement; `columns` are those of the first row of its batch. */
  datatype Statement = Insert(columns: set<string>) | InsertIgnore(columns: set<string>) | Upsert(columns: set<string>)

  function ModeOf(s: Statement): OnConflict {
    match s case Insert(_) => Error case InsertIgnore(_) => Ignore case Upsert(_) => Update
  }

  /** The key the database finds: PostgreSQL asks the sequence, the others the table. */
  function FreeKey(d: Dialect, db: Db): int {
    if d.Postgres? then NextValue(db.sequence) else Top(db.table) + 1
  }

  /** One row of a batch; None stands for an integrity error or a missing column. */
  function Step(d: Dialect, s: Statement, db: Db, r: Row): Option<Db> {
    if !(s.columns <= r.cells.Keys) then None
    else
      var cells := map c | c in s.columns :: r.cells[c];
      if r.key.None? then
        var k := FreeKey(d, db);
        if k in db.table then None
        else Some(Db(db.table[k := cells], if d.Postgres? then Sequence(k, true) else db.sequence, db.log + [k]))
      else if s.Insert? && r.key.value in db.table then None
      else Some(db.(table := One(ModeOf(s), db.table, r.key.value, cells)))
  }

  /** `execute` with a list of rows. */
  function Batch(d: Dialect, s: Statement, db: Db, run: seq<Row>): Option<Db> {
    if run == [] then Some(db)
    else
      var before := Batch(d, s, db, run[..|run| - 1]);
      if before.None? then None else Step(d, s, before.value, run[|run| - 1])
  }

  predicate SameColumns(a: Row, b: Row) {
    a.key.Some? == b.key.Some? && a.cells.Keys == b.cells.Keys
  }

  predicate Homogeneous(run: seq<Row>) {
    forall i :: 0 <= i < |run| ==> SameColumns(run[i], run[0])
  }
}
