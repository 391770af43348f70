/**
 Replacing the contents of tables that refer to each other (`_write`, `_delete_all`,
 `_insert` and `_defer_refs` in monitor_app/services/importer.py), on a database that
 refuses every statement that would break a foreign key.

 `Database` checks either after every row or after every statement.  `Replacer` empties
 the tables from the last to the first, fills them from the first to the last, and writes
 references of a table to itself afterwards.
 */
module ForeignKeys {
  import opened DependencyOrder
  import opened Options

  type Column = string

  /** For each table, its foreign key columns (other than the primary key) and their targets. */
  type Schema = map<Name, map<Column, Name>>

  /** A row: the foreign key columns that are not null, and everything else. */
  datatype Row = Row(refs: map<Column, int>, cells: string)

  type Table = map<int, Row>
  type Contents = map<Name, Table>

  /** A row of a CSV file; `key` is what it has in the end, brought along or assigned. */
  datatype NewRow = NewRow(key: int, given: bool, row: Row)

  predicate WellTyped(schema: Schema) {
    forall t :: t in schema ==> forall c :: c in schema[t] ==> schema[t][c] in schema
  }

  /** Each reference of the row leads to a row; it may refer to itself. */
  predicate Holds(schema: Schema, db: Contents, t: Name, k: int, row: Row)
    requires t in schema && db.Keys == schema.Keys && WellTyped(schema)
  {
    forall c :: c in row.refs ==>
      c in schema[t] && (row.refs[c] in db[schema[t][c]] || (schema[t][c] == t && row.refs[c] == k))
  }

  /** No foreign key is violated. */
  ghost predicate Whole(schema: Schema, db: Contents)
    requires db.Keys == schema.Keys && WellTyped(schema)
  {
    forall t, k :: t in db && k in db[t] ==> Holds(schema, db, t, k, db[t][k])
  }

  /** A row of table `u` refers to table `t`. */
  predicate Refers(schema: Schema, u: Name, row: Row, t: Name)
    requires u in schema
  {
    exists c :: c in row.refs && c in schema[u] && schema[u][c] == t
  }

  function SelfColumns(schema: Schema, t: Name): set<Column>
    requires t in schema
  {
    set c | c in schema[t] && schema[t][c] == t
  }

  function Cleared(row: Row, columns: set<Column>): Row {
    Row(row.refs - columns, row.cells)
  }

  predicate NobodyRefers(schema: Schema, db: Contents, t: Name, exceptItself: bool)
    requires db.Keys == schema.Keys
  {
    forall u, k :: u in db && (u != t || !exceptItself) && k in db[u] ==> !Refers(schema, u, db[u][k], t)
  }

  class Database {
    const schema: Schema
    /** MySQL checks each row, PostgreSQL each statement. */
    const rowByRow: bool
    var contents: Contents

    ghost predicate Valid()
      reads this
    {
      WellTyped(schema) && contents.Keys == schema.Keys
    }

    constructor (schema: Schema, rowByRow: bool, contents: Contents)
      requires WellTyped(schema) && contents.Keys == schema.Keys
      ensures Valid() && this.schema == schema && this.rowByRow == rowByRow && this.contents == contents
    {
      this.schema, this.rowByRow, this.contents := schema, rowByRow, contents;
    }

    /** INSERT of one row: refused if the key is there or a reference leads nowhere. */
    method InsertRow(t: Name, k: int, row: Row) returns (ok: bool)
      requires Valid() && t in schema
      modifies this
      ensures Valid()
      ensures ok == (k !in old(contents)[t] && Holds(schema, old(contents), t, k, row))
      ensures contents == if ok then old(contents)[t := old(contents)[t][k := row]] else old(contents)
      ensures old(Whole(schema, contents)) ==> Whole(schema, contents)
    {
      ok := k !in contents[t] && Holds(schema, contents, t, k, row);
      if ok {
        contents := contents[t := contents[t][k := row]];
      }
    }

    /** UPDATE of the columns that refer to the own table, of one row. */
    method SetRefs(t: Name, k: int, refs: map<Column, int>) returns (ok: bool)
      requires Valid() && t in schema && k in contents[t] && refs.Keys <= SelfColumns(schema, t)
      modifies this
      ensures Valid()
      ensures ok == forall c :: c in refs ==> refs[c] in old(contents)[t]
      ensures contents == if ok
        then
          var row := old(contents)[t][k];
          old(contents)[t := old(contents)[t][k := Row(row.refs - SelfColumns(schema, t) + refs, row.cells)]]
        else old(contents)
      ensures old(Whole(schema, contents)) ==> Whole(schema, contents)
    {
      ok := forall c :: c in refs ==> refs[c] in contents[t];
      if ok {
        var row := contents[t][k];
        contents := contents[t := contents[t][k := Row(row.refs - SelfColumns(schema, t) + refs, row.cells)]];
      }
    }

    /** UPDATE of all rows: the columns that refer to the own table become null. */
    method ClearRefs(t: Name)
      requires Valid() && t in schema
      modifies this
      ensures Valid()
      ensures contents
        == old(contents)[t := map k | k in old(contents)[t] :: Cleared(old(contents)[t][k], SelfColumns(schema, t))]
      ensures old(Whole(schema, contents)) ==> Whole(schema, contents)
    {
      var columns := SelfColumns(schema, t);
      contents := contents[t := map k | k in contents[t] :: Cleared(contents[t][k], columns)];
    }

    /** DELETE of all rows, one after the other or at once. */
    method DeleteAll(t: Name) returns (ok: bool)
      requires Valid() && t in schema
      modifies this
      ensures Valid()
      ensures ok ==> contents == old(contents)[t := map[]]
      ensures old(NobodyRefers(schema, contents, t, !rowByRow)) ==> ok
      ensures ok && !rowByRow ==> old(NobodyRefers(schema, contents, t, true))
      ensures ok ==> old(forall k :: k in contents[t] ==> UnusedElsewhere(schema, contents, t, k))
      ensures old(Whole(schema, contents)) ==> Whole(schema, contents)
    {
      if !rowByRow {
        ok := NobodyRefers(schema, contents, t, true);
        if ok {
          contents := contents[t := map[]];
        }
        return;
      }
      ok := DeleteRows(t);
    }

    /** A database that checks row by row refuses as soon as a row is in use. */
    method DeleteRows(t: Name) returns (ok: bool)
      requires Valid() && t in schema
      modifies this
      ensures Valid()
      ensures ok ==> contents == old(contents)[t := map[]]
      ensures old(NobodyRefers(schema, contents, t, false)) ==> ok
      ensures ok ==> old(forall k :: k in contents[t] ==> UnusedElsewhere(schema, contents, t, k))
      ensures old(Whole(schema, contents)) ==> Whole(schema, contents)
    {
      hide Whole, NobodyRefers, RefersTo, WellTyped, UnusedElsewhere;
      var keys := contents[t].Keys;
      while keys != {}
        invariant Valid() && keys == contents[t].Keys
        invariant contents[t].Keys <= old(contents)[t].Keys
        invariant forall k :: k in contents[t] ==> contents[t][k] == old(contents)[t][k]
        invariant contents == old(contents)[t := contents[t]]
        invariant old(Whole(schema, contents)) ==> Whole(schema, contents)
        invariant forall k :: k in old(contents)[t] && k !in keys ==> UnusedElsewhere(schema, old(contents), t, k)
        decreases keys
      {
        ghost var some := ElementOf(keys);
        var k :| k in keys;
        if exists u, j ::
             u in contents && j in contents[u] && !(u == t && j == k) && RefersTo(schema, u, contents[u][j], t, k) {
          NobodyMeans(schema, old(contents), contents, t);
          return false;
        }
        ghost var before := contents;
        NotInUse(schema, old(contents), contents, t, k);
        contents := contents[t := contents[t] - {k}];
        StaysWhole(schema, before, contents, t, k);
        keys := keys - {k};
      }
      assert contents[t] == map[];
      return true;
    }
  }

  /** A row of table `u` refers to the row of `t` with this key. */
  predicate RefersTo(schema: Schema, u: Name, row: Row, t: Name, k: int)
    requires u in schema
  {
    exists c :: c in row.refs && c in schema[u] && schema[u][c] == t && row.refs[c] == k
  }

  /** No row of another table refers to this one. */
  ghost predicate UnusedElsewhere(schema: Schema, db: Contents, t: Name, k: int)
    requires db.Keys == schema.Keys
  {
    forall u, j :: u in db && u != t && j in db[u] ==> !RefersTo(schema, u, db[u][j], t, k)
  }

  lemma {:induction false} NotInUse(schema: Schema, before: Contents, now: Contents, t: Name, k: int)
    requires before.Keys == now.Keys == schema.Keys && t in schema && now == before[t := now[t]]
    requires forall u, j :: u in now && j in now[u] && !(u == t && j == k) ==> !RefersTo(schema, u, now[u][j], t, k)
    ensures UnusedElsewhere(schema, before, t, k)
  {
    forall u, j | u in before && u != t && j in before[u] ensures !RefersTo(schema, u, before[u][j], t, k) {
      assert now[u] == before[u];
    }
  }

  lemma {:induction false} NobodyMeans(schema: Schema, before: Contents, now: Contents, t: Name)
    requires before.Keys == now.Keys == schema.Keys && t in schema
    requires now == before[t := now[t]] && now[t].Keys <= before[t].Keys
    requires forall k :: k in now[t] ==> now[t][k] == before[t][k]
    ensures NobodyRefers(schema, before, t, false) ==>
      forall u, j, k :: u in now && j in now[u] ==> !RefersTo(schema, u, now[u][j], t, k)
  {
    if NobodyRefers(schema, before, t, false) {
      forall u, j, k | u in now && j in now[u] ensures !RefersTo(schema, u, now[u][j], t, k) {
        assert !Refers(schema, u, before[u][j], t);
      }
    }
  }

  lemma {:induction false} StaysWhole(schema: Schema, before: Contents, now: Contents, t: Name, k: int)
    requires before.Keys == now.Keys == schema.Keys && WellTyped(schema) && t in schema
    requires now == before[t := before[t] - {k}]
    requires forall u, j :: u in before && j in before[u] && !(u == t && j == k) ==>
      !RefersTo(schema, u, before[u][j], t, k)
    ensures Whole(schema, before) ==> Whole(schema, now)
  {
    if Whole(schema, before) {
      forall u, j | u in now && j in now[u] ensures Holds(schema, now, u, j, now[u][j]) {
        assert Holds(schema, before, u, j, before[u][j]);
        assert !RefersTo(schema, u, before[u][j], t, k);
      }
    }
  }

  // ----------------------------------------------------------------- filling a table

  /** The table that a direct insert of the rows, without any checks, makes. */
  function TableOf(rows: seq<NewRow>): Table {
    if rows == [] then map[]
    else TableOf(rows[..|rows| - 1])[rows[|rows| - 1].key := rows[|rows| - 1].row]
  }

  predicate EachKeyOnce(rows: seq<NewRow>) {
    forall i, j :: 0 <= i < j < |rows| ==> rows[i].key != rows[j].key
  }

  function KeySet(rows: seq<NewRow>): set<int> {
    set r | r in rows :: r.key
  }

  lemma {:induction false} KeySetGrows(rows: seq<NewRow>, i: nat)
    requires i < |rows|
    ensures KeySet(rows[..i + 1]) == KeySet(rows[..i]) + {rows[i].key}
    ensures rows[i].key in KeySet(rows) && KeySet(rows[..i]) <= KeySet(rows)
  {
    assert rows[..i + 1] == rows[..i] + [rows[i]];
  }

  lemma {:induction false} KeyIsNew(rows: seq<NewRow>, i: nat)
    requires EachKeyOnce(rows) && i < |rows|
    ensures rows[i].key !in KeySet(rows[..i])
  {
    forall r | r in rows[..i] ensures r.key != rows[i].key {
      var j :| 0 <= j < i && rows[..i][j] == r;
      assert rows[j] == r;
    }
  }

  predicate Has(table: Table, r: NewRow) {
    r.key in table && table[r.key] == r.row
  }

  lemma {:induction false} TableOfAt(rows: seq<NewRow>)
    ensures TableOf(rows).Keys == KeySet(rows)
    ensures EachKeyOnce(rows) ==> forall i :: 0 <= i < |rows| ==> Has(TableOf(rows), rows[i])
  {
    hide KeySet;
    if rows == [] {
      NoKeys();
    } else {
      var last := |rows| - 1;
      TableOfAt(rows[..last]);
      KeySetGrows(rows, last);
      assert rows[..last + 1] == rows;
      if EachKeyOnce(rows) {
        forall i | 0 <= i < |rows| ensures Has(TableOf(rows), rows[i]) {
          if i < last {
            assert rows[..last][i] == rows[i];
            assert Has(TableOf(rows[..last]), rows[..last][i]);
          }
        }
      }
    }
  }

  lemma {:induction false} NoKeys()
    ensures KeySet([]) == {}
  {
  }

  /** `_defer_refs` on one row: references to the own table are left for later. */
  predicate Defers(schema: Schema, t: Name, r: NewRow)
    requires t in schema
  {
    r.given && r.row.refs.Keys * SelfColumns(schema, t) != {}
  }

  function Deferred(schema: Schema, t: Name, r: NewRow): (d: NewRow)
    requires t in schema
    ensures d.key == r.key && d.row.cells == r.row.cells
  {
    if Defers(schema, t, r) then r.(row := Cleared(r.row, SelfColumns(schema, t))) else r
  }

  function SelfRefs(schema: Schema, t: Name, row: Row): map<Column, int>
    requires t in schema
  {
    map c | c in row.refs && c in SelfColumns(schema, t) :: row.refs[c]
  }

  lemma {:induction false} OwnColumnsOnly(schema: Schema, t: Name, row: Row)
    requires t in schema
    ensures SelfRefs(schema, t, row).Keys <= SelfColumns(schema, t)
  {
  }

  /** What the rows of a table need so that none is refused. */
  ghost predicate Fits(schema: Schema, db: Contents, t: Name, rows: seq<NewRow>)
    requires t in schema && db.Keys == schema.Keys && WellTyped(schema)
  {
    && EachKeyOnce(rows)
    && forall i :: 0 <= i < |rows| ==>
         && (!rows[i].given ==> rows[i].row.refs.Keys * SelfColumns(schema, t) == {})
         && Holds(schema, db[t := TableOf(rows)], t, rows[i].key, rows[i].row)
  }

  /** What a row without a key of its own refers to in its table is there when it is inserted. */
  ghost predicate RefersBack(schema: Schema, t: Name, was: Table, rows: seq<NewRow>, i: nat)
    requires t in schema && i < |rows|
  {
    !rows[i].given ==>
      forall c :: c in rows[i].row.refs && c in SelfColumns(schema, t) ==>
        var k := rows[i].row.refs[c];
        k in was || k == rows[i].key || exists j :: 0 <= j < i && rows[j].key == k
  }

  lemma {:induction false} BackIfHolds(schema: Schema, db: Contents, t: Name, was: Table, rows: seq<NewRow>, i: nat)
    requires t in schema && db.Keys == schema.Keys && WellTyped(schema) && i < |rows|
    requires db[t].Keys == was.Keys + KeySet(rows[..i])
    requires Holds(schema, db, t, rows[i].key, Deferred(schema, t, rows[i]).row)
    ensures RefersBack(schema, t, was, rows, i)
  {
    if !rows[i].given {
      forall c | c in rows[i].row.refs && c in SelfColumns(schema, t) && rows[i].row.refs[c] in KeySet(rows[..i])
        ensures exists j :: 0 <= j < i && rows[j].key == rows[i].row.refs[c]
      {
        var r :| r in rows[..i] && r.key == rows[i].row.refs[c];
        var j :| 0 <= j < i && rows[..i][j] == r;
        assert rows[j] == r;
      }
    }
  }

  /** The first `n` rows are in beside what was there; each had a key of its own. */
  ghost predicate Taken(schema: Schema, t: Name, was: Table, rows: seq<NewRow>, n: nat, table: Table)
    requires t in schema && n <= |rows|
  {
    && table.Keys == was.Keys + KeySet(rows[..n])
    && forall j :: 0 <= j < n ==> rows[j].key !in was && RefersBack(schema, t, was, rows, j)
  }

  lemma {:induction false} TakenOn(schema: Schema, db: Contents, t: Name, was: Table, rows: seq<NewRow>, i: nat)
    requires t in schema && db.Keys == schema.Keys && WellTyped(schema) && i < |rows|
    requires Taken(schema, t, was, rows, i, db[t]) && rows[i].key !in db[t]
    requires Holds(schema, db, t, rows[i].key, Deferred(schema, t, rows[i]).row)
    ensures Taken(schema, t, was, rows, i + 1, db[t][rows[i].key := Deferred(schema, t, rows[i]).row])
  {
    hide RefersBack, Holds, KeySet, Deferred;
    BackIfHolds(schema, db, t, was, rows, i);
    KeySetGrows(rows, i);
  }

  lemma {:induction false} NoneTaken(schema: Schema, t: Name, was: Table, rows: seq<NewRow>)
    requires t in schema
    ensures Taken(schema, t, was, rows, 0, was)
  {
  }

  lemma {:induction false} AllTaken(schema: Schema, t: Name, was: Table, rows: seq<NewRow>, table: Table)
    requires t in schema && Taken(schema, t, was, rows, |rows|, table)
    ensures forall r :: r in rows ==> r.key !in was
    ensures forall i :: 0 <= i < |rows| ==> RefersBack(schema, t, was, rows, i)
  {
    hide RefersBack;
  }

  /** The rows left for later among the first `n`. */
  ghost predicate PendingOk(schema: Schema, t: Name, rows: seq<NewRow>, n: nat, pending: seq<NewRow>)
    requires t in schema && n <= |rows|
  {
    && (forall j :: 0 <= j < |pending| ==> pending[j] in rows[..n])
    && (forall i :: 0 <= i < n && Defers(schema, t, rows[i]) ==> rows[i] in pending)
  }

  /** The first `n` rows are in, with the references to the own table left out. */
  ghost predicate Inserted(schema: Schema, t: Name, rows: seq<NewRow>, n: nat, table: Table)
    requires t in schema && n <= |rows|
  {
    && table.Keys == KeySet(rows[..n])
    && forall i :: 0 <= i < n ==> Has(table, Deferred(schema, t, rows[i]))
  }

  /** A row is complete, or waits among those that follow. */
  ghost predicate Complete(schema: Schema, t: Name, table: Table, r: NewRow, waiting: seq<NewRow>)
    requires t in schema
  {
    Has(table, r) || (Has(table, Deferred(schema, t, r)) && r in waiting)
  }

  /** All rows are in, and those that are not complete are still pending. */
  ghost predicate Updated(schema: Schema, t: Name, rows: seq<NewRow>, waiting: seq<NewRow>, table: Table)
    requires t in schema
  {
    && table.Keys == KeySet(rows)
    && forall i :: 0 <= i < |rows| ==> Complete(schema, t, table, rows[i], waiting)
  }

  lemma {:induction false} NoSelfRefs(schema: Schema, t: Name, r: NewRow)
    requires t in schema && (!r.given ==> r.row.refs.Keys * SelfColumns(schema, t) == {})
    ensures Deferred(schema, t, r).row.refs.Keys * SelfColumns(schema, t) == {}
  {
    var columns := SelfColumns(schema, t);
    assert (r.row.refs - columns).Keys == r.row.refs.Keys - columns;
    if r.given && !Defers(schema, t, r) {
      assert r.row.refs.Keys * columns == {};
    }
    assert Deferred(schema, t, r).row.refs.Keys * columns == {};
  }

  /** The row that comes next is not refused. */
  lemma {:induction false} InsertFits(schema: Schema, db: Contents, t: Name, rows: seq<NewRow>, i: nat, table: Table)
    requires t in schema && db.Keys == schema.Keys && WellTyped(schema) && i < |rows|
    requires Fits(schema, db, t, rows) && Inserted(schema, t, rows, i, table)
    ensures var r := Deferred(schema, t, rows[i]);
      r.key !in table && Holds(schema, db[t := table], t, r.key, r.row)
  {
    hide KeySet, TableOf;
    var r := Deferred(schema, t, rows[i]);
    KeyIsNew(rows, i);
    NoSelfRefs(schema, t, rows[i]);
    assert Holds(schema, db[t := TableOf(rows)], t, rows[i].key, rows[i].row);
    forall c | c in r.row.refs ensures c in schema[t] && r.row.refs[c] in db[t := table][schema[t][c]] {
      assert c in rows[i].row.refs;
      var own := SelfColumns(schema, t);
      assert (c in r.row.refs.Keys * own) == (c in r.row.refs.Keys && c in own);
    }
  }

  lemma {:induction false} InsertedOn(schema: Schema, t: Name, rows: seq<NewRow>, i: nat, table: Table)
    requires t in schema && i < |rows| && rows[i].key !in table && Inserted(schema, t, rows, i, table)
    ensures var r := Deferred(schema, t, rows[i]); Inserted(schema, t, rows, i + 1, table[r.key := r.row])
  {
    hide KeySet;
    KeySetGrows(rows, i);
    forall j | 0 <= j < i ensures Deferred(schema, t, rows[j]).key != rows[i].key {
      assert Has(table, Deferred(schema, t, rows[j]));
    }
  }

  /** The key of a row that was not refused is not that of an earlier one. */
  lemma {:induction false} OnceMore(schema: Schema, t: Name, rows: seq<NewRow>, i: nat, table: Table)
    requires t in schema && i < |rows| && rows[i].key !in table && Inserted(schema, t, rows, i, table)
    requires EachKeyOnce(rows[..i])
    ensures EachKeyOnce(rows[..i + 1])
  {
    hide KeySet;
    forall m, n | 0 <= m < n < i + 1 ensures rows[m].key != rows[n].key {
      assert m < i && Has(table, Deferred(schema, t, rows[m]));
      assert n < i ==> rows[..i][m].key != rows[..i][n].key;
    }
  }

  lemma {:induction false} PendingOn(schema: Schema, t: Name, rows: seq<NewRow>, i: nat, pending: seq<NewRow>)
    requires t in schema && i < |rows| && PendingOk(schema, t, rows, i, pending)
    ensures PendingOk(schema, t, rows, i + 1, if Defers(schema, t, rows[i]) then pending + [rows[i]] else pending)
  {
    assert rows[..i + 1] == rows[..i] + [rows[i]];
  }

  /** All rows are in before the first update. */
  lemma {:induction false} UpdatesStart(schema: Schema, t: Name, rows: seq<NewRow>, pending: seq<NewRow>, table: Table)
    requires t in schema && Inserted(schema, t, rows, |rows|, table) && PendingOk(schema, t, rows, |rows|, pending)
    ensures Updated(schema, t, rows, pending, table)
  {
    hide KeySet;
    assert rows[..|rows|] == rows;
  }

  lemma {:induction false} PendingThere(schema: Schema, t: Name, was: Table, rows: seq<NewRow>, pending: seq<NewRow>,
                                        table: Table)
    requires t in schema && Taken(schema, t, was, rows, |rows|, table) && PendingOk(schema, t, rows, |rows|, pending)
    ensures forall j :: 0 <= j < |pending| ==> pending[j].key in table
  {
    hide RefersBack;
    forall j | 0 <= j < |pending| ensures pending[j].key in table {
      assert pending[j] in rows[..|rows|] && pending[j].key in KeySet(rows[..|rows|]);
    }
  }

  /** An update completes its row. */
  lemma {:induction false} UpdateCompletes(schema: Schema, t: Name, rows: seq<NewRow>, pending: seq<NewRow>, n: nat,
                                           table: Table)
    requires t in schema && n < |pending| && EachKeyOnce(rows) && PendingOk(schema, t, rows, |rows|, pending)
    requires Updated(schema, t, rows, pending[n..], table)
    ensures var r := pending[n]; var refs := SelfRefs(schema, t, r.row);
      && r in rows && r.key in table
      && Row(table[r.key].refs - SelfColumns(schema, t) + refs, table[r.key].cells) == r.row
      && Updated(schema, t, rows, pending[n + 1..], table[r.key := r.row])
  {
    hide KeySet;
    var r := pending[n];
    assert r in rows[..|rows|];
    var i :| 0 <= i < |rows| && rows[i] == r;
    assert Complete(schema, t, table, rows[i], pending[n..]);
    KeySetGrows(rows, i);
    forall j | 0 <= j < |rows| ensures Complete(schema, t, table[r.key := r.row], rows[j], pending[n + 1..]) {
      assert Complete(schema, t, table, rows[j], pending[n..]);
      assert j != i ==> rows[j].key != rows[i].key;
      assert pending[n..] == [r] + pending[n + 1..];
    }
  }

  /** It is not refused, since all rows are there. */
  lemma {:induction false} UpdateFits(schema: Schema, db: Contents, t: Name, rows: seq<NewRow>, pending: seq<NewRow>,
                                      n: nat, table: Table)
    requires t in schema && db.Keys == schema.Keys && WellTyped(schema) && n < |pending|
    requires Fits(schema, db, t, rows) && PendingOk(schema, t, rows, |rows|, pending)
    requires Updated(schema, t, rows, pending[n..], table)
    ensures var refs := SelfRefs(schema, t, pending[n].row); forall c :: c in refs ==> refs[c] in table
  {
    hide TableOf, Holds, KeySet;
    var r := pending[n];
    assert r in rows[..|rows|];
    var i :| 0 <= i < |rows| && rows[i] == r;
    SelfRefsThere(schema, db, t, rows, i, table);
  }

  lemma {:induction false} SelfRefsThere(schema: Schema, db: Contents, t: Name, rows: seq<NewRow>, i: nat, table: Table)
    requires t in schema && db.Keys == schema.Keys && WellTyped(schema)
    requires Fits(schema, db, t, rows) && table.Keys == KeySet(rows) && i < |rows|
    ensures var refs := SelfRefs(schema, t, rows[i].row); forall c :: c in refs ==> refs[c] in table
    ensures rows[i].key in table
  {
    hide KeySet;
    TableOfAt(rows);
    KeySetGrows(rows, i);
    assert Holds(schema, db[t := TableOf(rows)], t, rows[i].key, rows[i].row);
  }

  /** Once all are updated the table is what a direct insert makes. */
  lemma {:induction false} AllUpdated(schema: Schema, t: Name, rows: seq<NewRow>, table: Table)
    requires t in schema && EachKeyOnce(rows) && Updated(schema, t, rows, [], table)
    ensures table == TableOf(rows)
  {
    hide TableOf;
    TableOfAt(rows);
    forall k | k in table ensures table[k] == TableOf(rows)[k] {
      assert k in KeySet(rows);
      var r :| r in rows && r.key == k;
      var i :| 0 <= i < |rows| && rows[i] == r;
      assert Complete(schema, t, table, rows[i], []);
      assert Has(TableOf(rows), rows[i]);
    }
  }

  // ------------------------------------------------------------------- the replacement

  /** What a direct insert into the emptied tables, without any checks, ends with. */
  ghost function Final(before: Contents, active: seq<Name>, news: map<Name, seq<NewRow>>): Contents
    requires forall t :: t in active ==> t in news
  {
    map t | t in before :: if t in active then TableOf(news[t]) else before[t]
  }

  /**
   What a replacement needs: an order with parents first among the replaced tables, no row
   of a table that stays refers to a replaced one, the result violates no foreign key, and
   rows that refer to their own table bring their key.
   */
  ghost predicate Replaceable(schema: Schema, before: Contents, active: seq<Name>, news: map<Name, seq<NewRow>>)
    requires WellTyped(schema) && before.Keys == schema.Keys
    requires forall t :: t in active ==> t in schema && t in news
  {
    && Distinct(active)
    && (forall i, j :: 0 <= i < j < |active| ==> forall c :: c in schema[active[i]] ==>
      schema[active[i]][c] != active[j])
    && Closed(schema, before, active, news)
  }

  /** The part of it that does not depend on the order. */
  ghost predicate Closed(schema: Schema, before: Contents, active: seq<Name>, news: map<Name, seq<NewRow>>)
    requires WellTyped(schema) && before.Keys == schema.Keys
    requires forall t :: t in active ==> t in schema && t in news
  {
    && (forall u, k, t :: u in before && u !in active && k in before[u] && t in active ==>
      !Refers(schema, u, before[u][k], t))
    && (forall t :: t in active ==>
          && EachKeyOnce(news[t])
          && forall r :: r in news[t] ==>
               && (!r.given ==> r.row.refs.Keys * SelfColumns(schema, t) == {})
               && Holds(schema, Final(before, active, news), t, r.key, r.row))
  }

  ghost predicate Emptied(before: Contents, active: seq<Name>, i: nat, now: Contents)
    requires i <= |active|
  {
    && now.Keys == before.Keys
    && forall t :: t in before ==> now[t] == if t in active[i..] then map[] else before[t]
  }

  ghost predicate Filled(before: Contents, active: seq<Name>, news: map<Name, seq<NewRow>>, i: nat, now: Contents)
    requires i <= |active| && forall t :: t in active ==> t in news
  {
    && now.Keys == before.Keys
    && forall t :: t in before ==>
         now[t] == if t in active[..i] then TableOf(news[t]) else if t in active then map[] else before[t]
  }

  lemma {:induction false} NothingEmptied(before: Contents, active: seq<Name>)
    ensures Emptied(before, active, |active|, before)
  {
  }

  /** When a table is emptied, no row refers to it any more. */
  lemma {:induction false} NobodyLeft(schema: Schema, before: Contents, active: seq<Name>, news: map<Name, seq<NewRow>>,
                                      i: nat, was: Contents, now: Contents, rowByRow: bool)
    requires WellTyped(schema) && before.Keys == schema.Keys && i < |active|
    requires forall t :: t in active ==> t in schema && t in news
    requires Replaceable(schema, before, active, news) && Emptied(before, active, i + 1, was)
    requires var t := active[i]; var columns := SelfColumns(schema, t);
      now == if rowByRow && columns != {} then was[t := map k | k in was[t] :: Cleared(was[t][k], columns)] else was
    ensures now.Keys == schema.Keys && NobodyRefers(schema, now, active[i], !rowByRow)
  {
    hide Final, Holds, TableOf;
    var t := active[i];
    forall u, k | u in now && (u != t || rowByRow) && k in now[u] ensures !Refers(schema, u, now[u][k], t) {
      if u == t {
        NoneToItself(schema, t, was[t][k], now[t][k]);
      } else if u in active {
        var j :| 0 <= j < |active| && active[j] == u;
        forall m | i < m < |active| ensures active[m] in active[i + 1..] {
          assert active[i + 1..][m - i - 1] == active[m];
        }
        assert j < i;
        assert forall c :: c in schema[active[j]] ==> schema[active[j]][c] != active[i];
      } else {
        assert t in active;
        assert !Refers(schema, u, before[u][k], t);
      }
    }
  }

  lemma {:induction false} NoneToItself(schema: Schema, t: Name, was: Row, now: Row)
    requires t in schema && now == (if SelfColumns(schema, t) != {} then Cleared(was, SelfColumns(schema, t)) else was)
    ensures !Refers(schema, t, now, t)
  {
    assert forall c :: c in schema[t] && schema[t][c] == t ==> c in SelfColumns(schema, t);
  }

  lemma {:induction false} EmptiedOn(before: Contents, active: seq<Name>, i: nat, was: Contents, now: Contents)
    requires i < |active| && Emptied(before, active, i + 1, was) && active[i] in was
    requires now == was[active[i] := map[]]
    ensures Emptied(before, active, i, now)
  {
    assert active[i..] == [active[i]] + active[i + 1..];
  }

  /** These tables hold the new rows under their keys and nothing else; the others are as they were. */
  ghost predicate Replaced(before: Contents, active: seq<Name>, news: map<Name, seq<NewRow>>, now: Contents)
    requires forall t :: t in active ==> t in news
  {
    && now.Keys == before.Keys
    && (forall t :: t in before && t !in active ==> now[t] == before[t])
    && (forall t, r :: t in before && t in active && r in news[t] ==> r.key in now[t] && now[t][r.key] == r.row)
    && (forall t, k :: t in before && t in active && k in now[t] ==> exists r :: r in news[t] && r.key == k)
  }

  lemma {:induction false} FinalMeans(before: Contents, active: seq<Name>, news: map<Name, seq<NewRow>>)
    requires forall t :: t in active ==> t in news
    requires forall j :: 0 <= j < |active| ==> EachKeyOnce(news[active[j]])
    ensures Replaced(before, active, news, Final(before, active, news))
  {
    hide TableOf, EachKeyOnce;
    forall t | t in before && t in active
      ensures forall r :: r in news[t] ==> r.key in TableOf(news[t]) && TableOf(news[t])[r.key] == r.row
      ensures forall k :: k in TableOf(news[t]) ==> exists r :: r in news[t] && r.key == k
    {
      TableOfAt(news[t]);
      forall r | r in news[t] ensures r.key in TableOf(news[t]) && TableOf(news[t])[r.key] == r.row {
        var i :| 0 <= i < |news[t]| && news[t][i] == r;
        assert Has(TableOf(news[t]), news[t][i]);
      }
      assert forall k :: k in KeySet(news[t]) ==> exists r :: r in news[t] && r.key == k;
    }
  }

  lemma {:induction false} ReplacedBoth(before: Contents, a: seq<Name>, b: seq<Name>, news: map<Name, seq<NewRow>>,
                                        now: Contents)
    requires (forall t :: t in a <==> t in b) && forall t :: t in a ==> t in news
    ensures Replaced(before, b, news, now) ==> Replaced(before, a, news, now)
  {
  }

  /** No row of a table that stays refers to a row of these tables. */
  ghost predicate NoneRefersOutside(schema: Schema, db: Contents, active: seq<Name>, some: seq<Name>)
    requires db.Keys == schema.Keys
  {
    forall u, k, t, j :: u in db && u !in active && k in db[u] && t in some && t in db && j in db[t] ==>
      !RefersTo(schema, u, db[u][k], t, j)
  }

  lemma {:induction false} NoneYet(schema: Schema, db: Contents, active: seq<Name>)
    requires db.Keys == schema.Keys
    ensures NoneRefersOutside(schema, db, active, active[|active|..])
  {
  }

  lemma {:induction false} OutsideOfBoth(schema: Schema, db: Contents, a: seq<Name>, b: seq<Name>)
    requires db.Keys == schema.Keys && forall t :: t in a <==> t in b
    ensures NoneRefersOutside(schema, db, b, b) ==> NoneRefersOutside(schema, db, a, a)
  {
    hide RefersTo;
  }

  /** A table that could be emptied is not referred to by what stays. */
  lemma {:induction false} OutsideOn(schema: Schema, before: Contents, active: seq<Name>, i: nat, was: Contents,
                                     cleared: Contents)
    requires before.Keys == cleared.Keys == was.Keys == schema.Keys && i < |active| && active[i] in before
    requires Emptied(before, active, i + 1, was) && NoneRefersOutside(schema, before, active, active[i + 1..])
    requires cleared == was[active[i] := cleared[active[i]]] && cleared[active[i]].Keys == was[active[i]].Keys
    requires forall k :: k in cleared[active[i]] ==> UnusedElsewhere(schema, cleared, active[i], k)
    ensures NoneRefersOutside(schema, before, active, active[i..])
  {
    hide RefersTo;
    assert active[i..] == [active[i]] + active[i + 1..];
    forall u, k, t, j | u in before && u !in active && k in before[u] && t in active[i..] && t in before
      && j in before[t]
      ensures !RefersTo(schema, u, before[u][k], t, j)
    {
      if t !in active[i + 1..] {
        assert t == active[i] && j in cleared[t] && cleared[u] == before[u];
        assert UnusedElsewhere(schema, cleared, t, j);
      }
    }
  }

  /** A table that was filled could only be filled again if there is nothing to fill it with. */
  lemma {:induction false} WasEmpty(before: Contents, active: seq<Name>, news: map<Name, seq<NewRow>>, i: nat,
                                    was: Contents)
    requires i < |active| && active[i] in before && forall t :: t in active ==> t in news
    requires Filled(before, active, news, i, was)
    requires forall r :: r in news[active[i]] ==> r.key !in was[active[i]]
    ensures was[active[i]] == map[]
  {
    hide TableOf, KeySet;
    TableOfAt(news[active[i]]);
    NoneCommon(news[active[i]], was[active[i]]);
  }

  lemma {:induction false} NoneCommon(rows: seq<NewRow>, table: Table)
    requires forall r :: r in rows ==> r.key !in table
    ensures KeySet(rows) * table.Keys == {}
    ensures table.Keys == KeySet(rows) ==> table == map[]
  {
    assert KeySet(rows) * table.Keys == {};
  }

  lemma {:induction false} FillStarts(before: Contents, active: seq<Name>, news: map<Name, seq<NewRow>>, now: Contents)
    requires Emptied(before, active, 0, now) && forall t :: t in active ==> t in news
    ensures Filled(before, active, news, 0, now)
  {
    assert active[0..] == active;
  }

  /** When a table is filled, all it refers to is there. */
  lemma {:induction false} FillFits(schema: Schema, before: Contents, active: seq<Name>, news: map<Name, seq<NewRow>>,
                                    i: nat, now: Contents)
    requires WellTyped(schema) && before.Keys == schema.Keys && i < |active|
    requires forall t :: t in active ==> t in schema && t in news
    requires Replaceable(schema, before, active, news) && Filled(before, active, news, i, now)
    ensures now.Keys == schema.Keys && now[active[i]] == map[] && Fits(schema, now, active[i], news[active[i]])
  {
    hide TableOf;
    var t := active[i];
    var rows := news[t];
    forall k | 0 <= k < |rows|
      ensures !rows[k].given ==> rows[k].row.refs.Keys * SelfColumns(schema, t) == {}
      ensures Holds(schema, now[t := TableOf(rows)], t, rows[k].key, rows[k].row)
    {
      var r := rows[k];
      assert r in rows && Holds(schema, Final(before, active, news), t, r.key, r.row);
      forall c | c in r.row.refs ensures now[t := TableOf(rows)][schema[t][c]]
        == Final(before, active, news)[schema[t][c]] {
      }
    }
  }

  lemma {:induction false} FilledOn(before: Contents, active: seq<Name>, news: map<Name, seq<NewRow>>, i: nat,
                                    was: Contents, now: Contents)
    requires i < |active| && active[i] in before && forall t :: t in active ==> t in news
    requires Filled(before, active, news, i, was) && now == was[active[i] := TableOf(news[active[i]])]
    ensures Filled(before, active, news, i + 1, now)
  {
    hide TableOf;
    assert active[..i + 1] == active[..i] + [active[i]];
  }

  lemma {:induction false} FilledIsFinal(before: Contents, active: seq<Name>, news: map<Name, seq<NewRow>>,
                                         now: Contents)
    requires (forall t :: t in active ==> t in news) && Filled(before, active, news, |active|, now)
    ensures now == Final(before, active, news)
  {
    hide TableOf;
    assert active[..|active|] == active;
  }

  /** Sorting sources by the dependency order puts the parents first among them. */
  lemma {:induction false} SortedIsParentsFirst(schema: Schema, order: seq<Name>, deps: Deps, active: seq<Name>)
    requires WellTyped(schema) && ParentsFirst(order, deps) && deps.Keys == schema.Keys == Set(order)
    requires forall t, c :: t in schema && c in schema[t] && schema[t][c] != t ==> schema[t][c] in deps[t]
    requires forall t :: t in active ==> t in order
    requires forall i, j :: 0 <= i < j < |active| ==> Index(order, active[i]) < Index(order, active[j])
    ensures Distinct(active)
    ensures forall i, j :: 0 <= i < j < |active| ==> forall c :: c in schema[active[i]] ==>
      schema[active[i]][c] != active[j]
  {
    forall i, j | 0 <= i < j < |active|
      ensures active[i] != active[j]
      ensures forall c :: c in schema[active[i]] ==> schema[active[i]][c] != active[j]
    {
      forall c | c in schema[active[i]] ensures schema[active[i]][c] != active[j] {
      }
    }
  }

  /** What each table refers to, itself not counted. */
  function DepsOf(schema: Schema): Deps {
    map t | t in schema :: set c | c in schema[t] && schema[t][c] != t :: schema[t][c]
  }

  lemma {:induction false} OnlyTheSetMatters(schema: Schema, before: Contents, a: seq<Name>, b: seq<Name>,
                                             news: map<Name, seq<NewRow>>)
    requires WellTyped(schema) && before.Keys == schema.Keys
    requires forall t :: t in a ==> t in schema && t in news
    requires forall t :: t in a <==> t in b
    ensures Final(before, a, news) == Final(before, b, news)
    ensures Closed(schema, before, a, news) ==> Closed(schema, before, b, news)
  {
    hide TableOf, Holds, WellTyped;
  }

  class Replacer {
    const db: Database

    constructor (db: Database)
      ensures this.db == db
    {
      this.db := db;
    }

    /** One row of `_insert`, without the references that `_defer_refs` takes out. */
    method InsertDeferred(t: Name, r: NewRow) returns (ok: bool, later: bool)
      requires db.Valid() && t in db.schema
      modifies db
      ensures db.Valid()
      ensures var row := Deferred(db.schema, t, r).row; var was := old(db.contents);
        && ok == (r.key !in was[t] && Holds(db.schema, was, t, r.key, row))
        && db.contents == (if ok then was[t := was[t][r.key := row]] else was)
      ensures later == Defers(db.schema, t, r)
      ensures old(Whole(db.schema, db.contents)) ==> Whole(db.schema, db.contents)
    {
      hide Whole, WellTyped, Holds;
      var columns := SelfColumns(db.schema, t);
      var row := r.row;
      later := r.given && row.refs.Keys * columns != {};
      if later {
        row := Cleared(row, columns);
      }
      ok := db.InsertRow(t, r.key, row);
    }

    /** `_insert` where foreign keys are enforced. */
    method Insert(t: Name, rows: seq<NewRow>) returns (ok: bool)
      requires db.Valid() && t in db.schema
      modifies db
      ensures db.Valid()
      ensures old(db.contents[t] == map[] && Fits(db.schema, db.contents, t, rows)) ==>
        ok && db.contents == old(db.contents)[t := TableOf(rows)]
      ensures ok ==> forall r :: r in rows ==> r.key !in old(db.contents)[t]
      ensures ok ==> forall i :: 0 <= i < |rows| ==> RefersBack(db.schema, t, old(db.contents)[t], rows, i)
      ensures ok && old(db.contents)[t] == map[] ==>
        db.contents == old(db.contents)[t := TableOf(rows)] && EachKeyOnce(rows)
      ensures old(Whole(db.schema, db.contents)) ==> Whole(db.schema, db.contents)
    {
      hide Whole, Fits, WellTyped, Holds, Inserted, Updated, PendingOk, EachKeyOnce, SelfColumns, TableOf, Cleared,
        RefersBack, KeySet, Taken, Deferred, Defers;
      ghost var empty := db.contents[t] == map[];
      ghost var fits := empty && Fits(db.schema, db.contents, t, rows);
      ghost var before := db.contents;
      var pending: seq<NewRow> := [];
      NothingYet(db.schema, db.contents, t, rows);
      NoneTaken(db.schema, t, before[t], rows);
      for i := 0 to |rows|
        invariant db.Valid() && db.contents == before[t := db.contents[t]]
        invariant old(Whole(db.schema, db.contents)) ==> Whole(db.schema, db.contents)
        invariant empty ==> Inserted(db.schema, t, rows, i, db.contents[t]) && EachKeyOnce(rows[..i])
        invariant Taken(db.schema, t, before[t], rows, i, db.contents[t])
        invariant PendingOk(db.schema, t, rows, i, pending)
      {
        var r := rows[i];
        if fits {
          InsertFits(db.schema, before, t, rows, i, db.contents[t]);
        }
        PendingOn(db.schema, t, rows, i, pending);
        ghost var between := db.contents;
        var later;
        ok, later := InsertDeferred(t, r);
        if !ok {
          return;
        }
        if later {
          pending := pending + [r];
        }
        TakenOn(db.schema, between, t, before[t], rows, i);
        if empty {
          InsertedOn(db.schema, t, rows, i, between[t]);
          OnceMore(db.schema, t, rows, i, between[t]);
        }
      }
      assert rows[..|rows|] == rows;
      AllTaken(db.schema, t, before[t], rows, db.contents[t]);
      PendingThere(db.schema, t, before[t], rows, pending, db.contents[t]);
      if empty {
        UpdatesStart(db.schema, t, rows, pending, db.contents[t]);
      }
      ok := FillRefs(t, rows, pending, before);
    }

    /** The second half of `_insert`: the references that were left for later. */
    method FillRefs(t: Name, rows: seq<NewRow>, pending: seq<NewRow>, ghost before: Contents) returns (ok: bool)
      requires db.Valid() && t in db.schema && before.Keys == db.schema.Keys
        && db.contents == before[t := db.contents[t]]
      requires PendingOk(db.schema, t, rows, |rows|, pending)
      requires forall j :: 0 <= j < |pending| ==> pending[j].key in db.contents[t]
      modifies db
      ensures db.Valid()
      ensures old(Fits(db.schema, before, t, rows) && Updated(db.schema, t, rows, pending, db.contents[t])) ==>
        ok && db.contents == before[t := TableOf(rows)]
      ensures ok && EachKeyOnce(rows) && old(Updated(db.schema, t, rows, pending, db.contents[t])) ==>
        db.contents == before[t := TableOf(rows)]
      ensures old(Whole(db.schema, db.contents)) ==> Whole(db.schema, db.contents)
    {
      hide Whole, Fits, WellTyped, Holds, Updated, PendingOk, EachKeyOnce, TableOf, SelfColumns, SelfRefs, KeySet,
        Deferred, Cleared;
      ghost var all := EachKeyOnce(rows) && Updated(db.schema, t, rows, pending, db.contents[t]);
      ghost var fits := Fits(db.schema, before, t, rows) && Updated(db.schema, t, rows, pending, db.contents[t]);
      NothingYet(db.schema, before, t, rows);
      assert pending[0..] == pending;
      for i := 0 to |pending|
        invariant db.Valid() && db.contents == before[t := db.contents[t]]
        invariant old(Whole(db.schema, db.contents)) ==> Whole(db.schema, db.contents)
        invariant forall j :: 0 <= j < |pending| ==> pending[j].key in db.contents[t]
        invariant all ==> Updated(db.schema, t, rows, pending[i..], db.contents[t])
      {
        if all {
          UpdateCompletes(db.schema, t, rows, pending, i, db.contents[t]);
        }
        if fits {
          UpdateFits(db.schema, before, t, rows, pending, i, db.contents[t]);
        }
        OwnColumnsOnly(db.schema, t, pending[i].row);
        ok := db.SetRefs(t, pending[i].key, SelfRefs(db.schema, t, pending[i].row));
        if !ok {
          return;
        }
      }
      assert pending[|pending|..] == [];
      if all {
        AllUpdated(db.schema, t, rows, db.contents[t]);
      }
      return true;
    }

    /**
     `_run` in replace mode.  Without a circle among the foreign keys, a replacement whose
     result violates none is never refused, and ends as a direct insert.
     */
    method Run(tables: seq<Name>, sources: seq<Name>, news: map<Name, seq<NewRow>>) returns (ok: bool)
      requires db.Valid() && Distinct(tables) && Set(tables) == db.schema.Keys
      requires forall t :: t in sources ==> t in db.schema && t in news
      modifies db
      ensures db.Valid()
      ensures old(Acyclic(DepsOf(db.schema)) && Closed(db.schema, db.contents, sources, news)) ==>
        ok && db.contents == Final(old(db.contents), sources, news)
      ensures ok ==> db.contents == Final(old(db.contents), sources, news)
      ensures ok ==> Replaced(old(db.contents), sources, news, db.contents)
      ensures ok ==> old(NoneRefersOutside(db.schema, db.contents, sources, sources))
      ensures !ok ==> db.contents == old(db.contents)
      ensures old(Whole(db.schema, db.contents)) ==> Whole(db.schema, db.contents)
    {
      hide Whole, Closed, Final, Acyclic, Index, Replaced, NoneRefersOutside;
      var deps := DepsOf(db.schema);
      assert forall t :: t in tables ==> t in Set(tables);
      var order := Order(tables, deps);
      assert forall t :: t in sources ==> t in Set(order);
      var active := SortBy(order, sources);
      if ParentsFirst(order, deps) {
        SortedIsParentsFirst(db.schema, order, deps, active);
      }
      OnlyTheSetMatters(db.schema, db.contents, sources, active, news);
      OutsideOfBoth(db.schema, db.contents, sources, active);
      ghost var before := db.contents;
      ok := Replace(active, news);
      ReplacedBoth(before, sources, active, news, db.contents);
    }

    /**
     The replacement of `_write`: empty the tables, children first, then fill them, parents
     first.  A refusal undoes the transaction.
     */
    method Replace(active: seq<Name>, news: map<Name, seq<NewRow>>) returns (ok: bool)
      requires db.Valid() && forall t :: t in active ==> t in db.schema && t in news
      modifies db
      ensures db.Valid()
      ensures old(Replaceable(db.schema, db.contents, active, news)) ==>
        ok && db.contents == Final(old(db.contents), active, news)
      ensures ok ==> db.contents == Final(old(db.contents), active, news)
      ensures ok ==> Replaced(old(db.contents), active, news, db.contents)
      ensures ok ==> old(NoneRefersOutside(db.schema, db.contents, active, active))
      ensures !ok ==> db.contents == old(db.contents)
      ensures old(Whole(db.schema, db.contents)) ==> Whole(db.schema, db.contents)
    {
      hide Whole, Replaceable, WellTyped, Final, Filled, Emptied, NoneRefersOutside, Replaced;
      var before := db.contents;
      ok := Empty(active, news);
      if ok {
        ok := Fill(active, news, before);
      }
      if !ok {
        db.contents := before;
      }
    }

    /** `_delete_all` on the tables, from the last to the first. */
    method Empty(active: seq<Name>, ghost news: map<Name, seq<NewRow>>) returns (ok: bool)
      requires db.Valid() && forall t :: t in active ==> t in db.schema && t in news
      modifies db
      ensures db.Valid()
      ensures old(Replaceable(db.schema, db.contents, active, news)) ==> ok
      ensures ok ==> Emptied(old(db.contents), active, 0, db.contents)
      ensures ok ==> old(NoneRefersOutside(db.schema, db.contents, active, active))
      ensures old(Whole(db.schema, db.contents)) ==> Whole(db.schema, db.contents)
    {
      hide Whole, Replaceable, WellTyped, Final, Emptied, NoneRefersOutside, UnusedElsewhere;
      ghost var before := db.contents;
      ghost var can := Replaceable(db.schema, before, active, news);
      NothingEmptied(before, active);
      NoneYet(db.schema, before, active);
      var i := |active|;
      while i > 0
        invariant 0 <= i <= |active| && db.Valid()
        invariant old(Whole(db.schema, db.contents)) ==> Whole(db.schema, db.contents)
        invariant Emptied(before, active, i, db.contents)
        invariant NoneRefersOutside(db.schema, before, active, active[i..])
      {
        i := i - 1;
        ghost var was := db.contents;
        var t := active[i];
        if db.rowByRow && SelfColumns(db.schema, t) != {} {
          db.ClearRefs(t);
        }
        if can {
          NobodyLeft(db.schema, before, active, news, i, was, db.contents, db.rowByRow);
        }
        ghost var cleared := db.contents;
        ok := db.DeleteAll(t);
        if !ok {
          return;
        }
        OutsideOn(db.schema, before, active, i, was, cleared);
        EmptiedOn(before, active, i, was, db.contents);
      }
      assert active[0..] == active;
      ok := true;
    }

    /** `_insert` into the tables, from the first to the last. */
    method Fill(active: seq<Name>, news: map<Name, seq<NewRow>>, ghost before: Contents) returns (ok: bool)
      requires db.Valid() && forall t :: t in active ==> t in db.schema && t in news
      requires before.Keys == db.schema.Keys && Emptied(before, active, 0, db.contents)
      modifies db
      ensures db.Valid()
      ensures Replaceable(db.schema, before, active, news) ==> ok
      ensures ok ==> db.contents == Final(before, active, news) && Replaced(before, active, news, db.contents)
      ensures old(Whole(db.schema, db.contents)) ==> Whole(db.schema, db.contents)
    {
      hide Whole, Replaceable, WellTyped, Final, Emptied, Filled, Fits, Replaced, EachKeyOnce;
      ghost var can := Replaceable(db.schema, before, active, news);
      FillStarts(before, active, news, db.contents);
      for i := 0 to |active|
        invariant db.Valid()
        invariant old(Whole(db.schema, db.contents)) ==> Whole(db.schema, db.contents)
        invariant Filled(before, active, news, i, db.contents)
        invariant forall j :: 0 <= j < i ==> EachKeyOnce(news[active[j]])
      {
        ghost var was := db.contents;
        if can {
          FillFits(db.schema, before, active, news, i, was);
        }
        ok := Insert(active[i], news[active[i]]);
        if !ok {
          return;
        }
        WasEmpty(before, active, news, i, was);
        FilledOn(before, active, news, i, was, db.contents);
      }
      ok := true;
      FilledIsFinal(before, active, news, db.contents);
      FinalMeans(before, active, news);
    }
  }

  lemma {:induction false} NothingYet(schema: Schema, db: Contents, t: Name, rows: seq<NewRow>)
    requires t in schema && db.Keys == schema.Keys && WellTyped(schema)
    ensures Inserted(schema, t, rows, 0, map[]) && PendingOk(schema, t, rows, 0, []) && EachKeyOnce(rows[..0])
    ensures Fits(schema, db, t, rows) ==> EachKeyOnce(rows)
  {
  }
}
