/**
 The stock ledger of the warehouse demo and the closing of its books
 (monitor_app/demo/simulation.py).

 Closing at a cutoff carries the balance of each position forward as one row with the time
 of the cutoff, deletes the rows before it, and then the lots received before it that no row
 mentions any more.  `Books` does this as the source does; a position whose balance is
 nothing is not carried.  Rows are compared by the time they bear, which is a number here.
 */
module Ledger {
  import opened Options

  datatype Kind = Arrival | Shipment | Transfer | Adjustment | Disposal | CarriedForward

  /** Where pieces of a lot are. */
  datatype Key = Key(lot: string, location: string)

  datatype Movement = Movement(ts: int, kind: Kind, key: Key, qty: int)

  datatype Lot = Lot(no: string, sku: string, received: int, expiry: Option<int>)

  /** The sum of a position over the ledger. */
  function Balance(ledger: seq<Movement>, key: Key): int {
    if ledger == [] then 0
    else Balance(ledger[..|ledger| - 1], key) + if ledger[|ledger| - 1].key == key then ledger[|ledger| - 1].qty else 0
  }

  lemma {:induction false} BalanceConcat(a: seq<Movement>, b: seq<Movement>, key: Key)
    ensures Balance(a + b, key) == Balance(a, key) + Balance(b, key)
  {
    if b == [] {
      assert a + b == a;
    } else {
      assert (a + b)[..|a + b| - 1] == a + b[..|b| - 1];
      BalanceConcat(a, b[..|b| - 1], key);
    }
  }

  /** `DELETE ... WHERE ts < cutoff` leaves these. */
  function From(ledger: seq<Movement>, cutoff: int): seq<Movement> {
    if ledger == [] then []
    else
      var rest := From(ledger[..|ledger| - 1], cutoff);
      if ledger[|ledger| - 1].ts < cutoff then rest else rest + [ledger[|ledger| - 1]]
  }

  function Before(ledger: seq<Movement>, cutoff: int): seq<Movement> {
    if ledger == [] then []
    else
      var rest := Before(ledger[..|ledger| - 1], cutoff);
      if ledger[|ledger| - 1].ts < cutoff then rest + [ledger[|ledger| - 1]] else rest
  }

  lemma {:induction false} SplitAtCutoff(ledger: seq<Movement>, cutoff: int, key: Key)
    ensures Balance(Before(ledger, cutoff), key) + Balance(From(ledger, cutoff), key) == Balance(ledger, key)
  {
    if ledger != [] {
      var last := ledger[|ledger| - 1];
      SplitAtCutoff(ledger[..|ledger| - 1], cutoff, key);
    }
  }

  lemma {:induction false} SplitRows(ledger: seq<Movement>, cutoff: int)
    ensures forall m :: m in From(ledger, cutoff) <==> m in ledger && m.ts >= cutoff
    ensures forall m :: m in Before(ledger, cutoff) <==> m in ledger && m.ts < cutoff
  {
    if ledger != [] {
      SplitRows(ledger[..|ledger| - 1], cutoff);
      assert ledger == ledger[..|ledger| - 1] + [ledger[|ledger| - 1]];
    }
  }

  /** These are the rows of the ledger from the cutoff on, in their order; `at` is where they were. */
  ghost predicate RowsFrom(ledger: seq<Movement>, cutoff: int, kept: seq<Movement>, at: seq<nat>) {
    PartAt(kept, ledger, at) && forall i :: 0 <= i < |ledger| ==> (i in at <==> ledger[i].ts >= cutoff)
  }

  lemma {:induction false} FromIsPart(ledger: seq<Movement>, cutoff: int) returns (at: seq<nat>)
    ensures RowsFrom(ledger, cutoff, From(ledger, cutoff), at)
  {
    hide From, Picked, RowsFrom;
    var keep := (m: Movement) => if m.ts < cutoff then None else Some(m);
    at := FromPicked(ledger, cutoff, keep);
    PickedAreRows(ledger, cutoff, keep, From(ledger, cutoff), at);
  }

  lemma {:induction false} PickedAreRows(ledger: seq<Movement>, cutoff: int, keep: Movement -> Option<Movement>,
                                         kept: seq<Movement>, at: seq<nat>)
    requires forall m :: keep(m) == if m.ts < cutoff then None else Some(m)
    requires Picked(keep, ledger, kept, at)
    ensures RowsFrom(ledger, cutoff, kept, at)
  {
    forall i | 0 <= i < |ledger| ensures i in at <==> ledger[i].ts >= cutoff {
      if i in at {
        var j :| 0 <= j < |at| && at[j] == i;
        assert keep(ledger[at[j]]) == Some(kept[j]);
      } else {
        assert keep(ledger[i]).None?;
      }
    }
  }

  lemma {:induction false} FromPicked(ledger: seq<Movement>, cutoff: int, keep: Movement -> Option<Movement>)
    returns (at: seq<nat>)
    requires forall m :: keep(m) == if m.ts < cutoff then None else Some(m)
    ensures Picked(keep, ledger, From(ledger, cutoff), at)
  {
    hide Picked, From;
    if ledger == [] {
      at := [];
      FromNothing(cutoff);
      PickedOne(keep, CarryRow(Key("", ""), 0, cutoff));
    } else {
      var before, last := ledger[..|ledger| - 1], ledger[|ledger| - 1];
      var places := FromPicked(before, cutoff, keep);
      PickedOne(keep, last);
      var row, place := if last.ts < cutoff then [] else [last], if last.ts < cutoff then [] else [0];
      PickedBoth(keep, before, From(before, cutoff), places, [last], row, place);
      assert before + [last] == ledger;
      FromLast(ledger, cutoff);
      at := places + Shifted(place, |before|);
    }
  }

  lemma {:induction false} FromNothing(cutoff: int)
    ensures From([], cutoff) == []
  {
  }

  lemma {:induction false} FromLast(ledger: seq<Movement>, cutoff: int)
    requires ledger != []
    ensures From(ledger, cutoff)
      == From(ledger[..|ledger| - 1], cutoff)
         + if ledger[|ledger| - 1].ts < cutoff then [] else [ledger[|ledger| - 1]]
  {
  }

  /** One row for a position at most, and it says what went missing there. */
  ghost predicate CarriesOver(was: seq<Movement>, cutoff: int, kept: seq<Movement>, rows: seq<Movement>) {
    && OncePerPosition(rows)
    && forall m :: m in rows ==>
         m.ts == cutoff && m.kind == CarriedForward && m.qty == Balance(was, m.key) - Balance(kept, m.key) != 0
  }

  predicate Mentions(ledger: seq<Movement>, key: Key) {
    exists m :: m in ledger && m.key == key
  }

  lemma {:induction false} NotMentioned(ledger: seq<Movement>, key: Key)
    requires !Mentions(ledger, key)
    ensures Balance(ledger, key) == 0
  {
    if ledger != [] {
      assert ledger[|ledger| - 1] in ledger;
      forall m | m in ledger[..|ledger| - 1] ensures m in ledger {
      }
      NotMentioned(ledger[..|ledger| - 1], key);
    }
  }

  function CarryRow(key: Key, qty: int, cutoff: int): Movement {
    Movement(cutoff, CarriedForward, key, qty)
  }

  /** The carry rows of the positions, for those that do not add up to nothing. */
  function Carried(rows: seq<Movement>, keys: seq<Key>, cutoff: int): seq<Movement> {
    if keys == [] then []
    else
      var k, others := keys[|keys| - 1], Carried(rows, keys[..|keys| - 1], cutoff);
      if Balance(rows, k) != 0 then others + [CarryRow(k, Balance(rows, k), cutoff)] else others
  }

  /** Carrying forward keeps each balance, with one row for a position at most. */
  lemma {:induction false} CarriedBalance(rows: seq<Movement>, keys: seq<Key>, cutoff: int, key: Key)
    requires Distinct(keys)
    ensures Balance(Carried(rows, keys, cutoff), key) == if key in keys then Balance(rows, key) else 0
  {
    if keys != [] {
      var before, k := keys[..|keys| - 1], keys[|keys| - 1];
      CarriedBalance(rows, before, cutoff, key);
      assert keys == before + [k];
    }
  }

  lemma {:induction false} CarriedRows(rows: seq<Movement>, keys: seq<Key>, cutoff: int)
    ensures forall m :: m in Carried(rows, keys, cutoff) ==>
      m.ts == cutoff && m.kind == CarriedForward && m.key in keys && m.qty == Balance(rows, m.key) != 0
  {
    if keys != [] {
      CarriedRows(rows, keys[..|keys| - 1], cutoff);
    }
  }

  lemma {:induction false} CarriedOnce(rows: seq<Movement>, keys: seq<Key>, cutoff: int)
    requires Distinct(keys)
    ensures OncePerPosition(Carried(rows, keys, cutoff))
  {
    if keys != [] {
      var before, k := keys[..|keys| - 1], keys[|keys| - 1];
      CarriedOnce(rows, before, cutoff);
      var others := Carried(rows, before, cutoff);
      forall i | 0 <= i < |others| ensures others[i].key != k {
        CarriedRows(rows, before, cutoff);
        assert others[i] in others && others[i].key in before;
        var n :| 0 <= n < |before| && before[n] == others[i].key;
        assert keys[n] == before[n];
      }
    }
  }

  predicate OncePerPosition(rows: seq<Movement>) {
    forall i, j :: 0 <= i < j < |rows| ==> rows[i].key != rows[j].key
  }

  /** The tables movements and lots. */
  class Books {
    var ledger: seq<Movement>
    var lots: map<string, Lot>

    constructor (ledger: seq<Movement>, lots: map<string, Lot>)
      ensures this.ledger == ledger && this.lots == lots
    {
      this.ledger, this.lots := ledger, lots;
    }

    /** A lot that a row of the ledger refers to. */
    predicate Referenced(no: string)
      reads this
    {
      exists m :: m in ledger && m.key.lot == no
    }

    /**
     `close_books`: rows before the cutoff become one carry row for each position.  Every
     balance stays; no row before the cutoff is left; only lots without rows go.
     */
    method CloseBooks(cutoff: int) returns (positions: nat)
      modifies this
      ensures forall key :: Balance(ledger, key) == Balance(old(ledger), key)
      ensures forall m :: m in ledger ==> m.ts >= cutoff
      ensures positions == 0 <==> forall m :: m in old(ledger) ==> m.ts >= cutoff
      ensures positions == 0 ==> ledger == old(ledger) && lots == old(lots)
      ensures positions > 0 ==>
        exists keys :: Distinct(keys) && |keys| == positions
          && (forall k :: k in keys <==> Mentions(Before(old(ledger), cutoff), k))
          && ledger == From(old(ledger), cutoff) + Carried(Before(old(ledger), cutoff), keys, cutoff)
      ensures positions > 0 ==>
        exists kept, at, rows :: ledger == kept + rows
          && RowsFrom(old(ledger), cutoff, kept, at) && CarriesOver(old(ledger), cutoff, kept, rows)
      ensures positions > 0 ==>
        lots == map no | no in old(lots) && (old(lots)[no].received >= cutoff || Referenced(no)) :: old(lots)[no]
    {
      hide RowsFrom, CarriesOver;
      var sums := Before(ledger, cutoff);
      var keys := Positions(sums);
      SomeRow(ledger, cutoff, keys);
      if keys == [] {
        return 0;
      }
      var carried: seq<Movement> := [];
      for i := 0 to |keys|
        invariant carried == Carried(sums, keys[..i], cutoff)
      {
        assert keys[..i + 1][..i] == keys[..i];
        if Balance(sums, keys[i]) != 0 {
          carried := carried + [CarryRow(keys[i], Balance(sums, keys[i]), cutoff)];
        }
      }
      assert keys[..|keys|] == keys;
      forall key ensures Balance(From(ledger, cutoff) + carried, key) == Balance(ledger, key) {
        ClosedBalance(ledger, keys, cutoff, key);
      }
      ClosedRows(ledger, keys, cutoff);
      ghost var at := FromIsPart(ledger, cutoff);
      CarriedOver(ledger, keys, cutoff);
      ledger := From(ledger, cutoff) + carried;
      lots := map no | no in lots && (lots[no].received >= cutoff || Referenced(no)) :: lots[no];
      return |keys|;
    }
  }

  /** `GROUP BY lot_no, location`. */
  method Positions(rows: seq<Movement>) returns (keys: seq<Key>)
    ensures Distinct(keys) && forall k :: k in keys <==> Mentions(rows, k)
  {
    keys := [];
    for i := 0 to |rows|
      invariant Distinct(keys) && forall k :: k in keys <==> Mentions(rows[..i], k)
    {
      assert rows[..i + 1] == rows[..i] + [rows[i]];
      forall k ensures Mentions(rows[..i + 1], k) <==> Mentions(rows[..i], k) || rows[i].key == k {
        assert rows[i] in rows[..i + 1];
        if Mentions(rows[..i], k) {
          var m :| m in rows[..i] && m.key == k;
          assert m in rows[..i + 1];
        }
      }
      if rows[i].key !in keys {
        keys := keys + [rows[i].key];
      }
    }
    assert rows[..|rows|] == rows;
  }

  lemma {:induction false} SomeRow(ledger: seq<Movement>, cutoff: int, keys: seq<Key>)
    requires forall k :: k in keys <==> Mentions(Before(ledger, cutoff), k)
    ensures keys == [] <==> forall m :: m in ledger ==> m.ts >= cutoff
  {
    SplitRows(ledger, cutoff);
    if keys != [] {
      assert keys[0] in keys;
      var m :| m in Before(ledger, cutoff) && m.key == keys[0];
      assert m in ledger && m.ts < cutoff;
    }
    if m :| m in ledger && m.ts < cutoff {
      assert m in Before(ledger, cutoff);
      assert m.key in keys;
    }
  }

  lemma {:induction false} ClosedBalance(ledger: seq<Movement>, keys: seq<Key>, cutoff: int, key: Key)
    requires Distinct(keys) && forall k :: k in keys <==> Mentions(Before(ledger, cutoff), k)
    ensures Balance(From(ledger, cutoff) + Carried(Before(ledger, cutoff), keys, cutoff), key) == Balance(ledger, key)
  {
    var carried := Carried(Before(ledger, cutoff), keys, cutoff);
    SplitAtCutoff(ledger, cutoff, key);
    BalanceConcat(From(ledger, cutoff), carried, key);
    CarriedBalance(Before(ledger, cutoff), keys, cutoff, key);
    if key !in keys {
      NotMentioned(Before(ledger, cutoff), key);
    }
  }

  lemma {:induction false} ClosedRows(ledger: seq<Movement>, keys: seq<Key>, cutoff: int)
    requires Distinct(keys)
    ensures forall m :: m in From(ledger, cutoff) + Carried(Before(ledger, cutoff), keys, cutoff) ==> m.ts >= cutoff
  {
    SplitRows(ledger, cutoff);
    CarriedRows(Before(ledger, cutoff), keys, cutoff);
  }

  lemma {:induction false} CarriedOver(ledger: seq<Movement>, keys: seq<Key>, cutoff: int)
    requires Distinct(keys)
    ensures CarriesOver(ledger, cutoff, From(ledger, cutoff), Carried(Before(ledger, cutoff), keys, cutoff))
  {
    var rows := Carried(Before(ledger, cutoff), keys, cutoff);
    CarriedOnce(Before(ledger, cutoff), keys, cutoff);
    CarriedRows(Before(ledger, cutoff), keys, cutoff);
    forall m | m in rows ensures m.qty == Balance(ledger, m.key) - Balance(From(ledger, cutoff), m.key) {
      SplitAtCutoff(ledger, cutoff, m.key);
    }
  }

  /** Closing again at the same cutoff finds nothing to do. */
  method CloseTwice(books: Books, cutoff: int) returns (again: nat)
    modifies books
    ensures again == 0
    ensures forall key :: Balance(books.ledger, key) == Balance(old(books.ledger), key)
  {
    var first := books.CloseBooks(cutoff);
    again := books.CloseBooks(cutoff);
  }
}
