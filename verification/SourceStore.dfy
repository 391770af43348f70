/**
 Rows and cursor of a source, written together (monitor_app/services/connectors.py).
 */
module SourceStore {
  import opened Options

  /** A record as the source holds it, and as the table gets it. */
  type RawRecord = string
  type Converter = RawRecord -> Option<string>

  /** What is committed: the rows in the table and the saved cursor of the source. */
  datatype Store<C(==)> = Store(table: seq<string>, cursor: Option<C>)

  /** `_convert`: records that cannot be converted are skipped. */
  function Converted(convert: Converter, raws: seq<RawRecord>): seq<string> {
    if raws == [] then []
    else
      Converted(convert, raws[..|raws| - 1])
      + match convert(raws[|raws| - 1]) case None => [] case Some(row) => [row]
  }

  lemma {:induction false} ConvertedConcat(convert: Converter, a: seq<RawRecord>, b: seq<RawRecord>)
    ensures Converted(convert, a + b) == Converted(convert, a) + Converted(convert, b)
  {
    if b == [] {
      assert a + b == a;
    } else {
      assert (a + b)[..|a + b| - 1] == a + b[..|b| - 1];
      ConvertedConcat(convert, a, b[..|b| - 1]);
    }
  }

  /** Each record that can be converted yields one row, in their order; the others add nothing. */
  lemma {:induction false} ConvertedOnce(convert: Converter, raws: seq<RawRecord>) returns (at: seq<nat>)
    ensures Picked(convert, raws, Converted(convert, raws), at)
  {
    hide Picked;
    if raws == [] {
      at := [];
      PickedOne(convert, "");
    } else {
      var before, last := raws[..|raws| - 1], raws[|raws| - 1];
      var places := ConvertedOnce(convert, before);
      PickedOne(convert, last);
      var row := match convert(last) case None => [] case Some(r) => [r];
      var place := if convert(last).Some? then [0] else [];
      PickedBoth(convert, before, Converted(convert, before), places, [last], row, place);
      assert before + [last] == raws;
      at := places + Shifted(place, |before|);
    }
  }

  /** The transaction of `_write` in append mode, with the cursor check. */
  function Written<C(==)>(s: Store<C>, rows: seq<string>, cursor: C, expected: Option<C>): Store<C> {
    if s.cursor != expected then s else Store(s.table + rows, Some(cursor))
  }

  /** The database as one process sees it between its transactions. */
  class Target<C(==)> {
    var store: Store<C>

    constructor ()
      ensures store == Store([], None)
    {
      store := Store([], None);
    }

    /** `_write`; a transaction that does not commit leaves no trace. */
    method Write(convert: Converter, raws: seq<RawRecord>, cursor: C, expected: Option<C>, commits: bool)
      returns (inserted: nat)
      modifies this
      ensures store == if commits then Written(old(store), Converted(convert, raws), cursor, expected) else old(store)
      ensures inserted == |store.table| - |old(store.table)|
    {
      if !commits || store.cursor != expected {
        return 0;
      }
      var rows: seq<string> := [];
      for i := 0 to |raws|
        invariant rows == Converted(convert, raws[..i]) && store == old(store)
      {
        assert raws[..i + 1][..i] == raws[..i];
        match convert(raws[i]) {
          case None =>
          case Some(row) => rows := rows + [row];
        }
      }
      assert raws[..|raws|] == raws;
      store := Store(store.table + rows, Some(cursor));
      inserted := |rows|;
    }
  }
}
