/**
 The warehouse of the demo (monitor_app/demo/simulation.py): stock by lot and location,
 with indexes that are kept up to date on the way.  Random choices are arbitrary inputs,
 and case counts are rational.

 `Stock` is the source's class; its methods decide on an event and apply it.  What an event
 may do to positions and shelves (`Safe`), and the order and the amounts of shipments and
 deliveries, is proved about the rows it consists of.
 */
module Warehouse {
  import opened Options
  import opened Ledger

  datatype Item = Item(sku: string, caseQty: int, zone: string, safetyStock: int)

  datatype Location = Location(code: string, zone: string, capacityCases: int)

  datatype Event = Event(lots: seq<Lot>, movements: seq<Movement>)

  // --------------------------------------------------------------- sums over positions

  function Term(stock: map<Key, int>, weight: Key -> real, k: Key): real
    requires k in stock
  {
    stock[k] as real * weight(k)
  }

  /** The weighted sum of a stock. */
  ghost function Sum(stock: map<Key, int>, weight: Key -> real): real
    decreases |stock|
  {
    if stock == map[] then 0.0
    else
      var k :| k in stock;
      Term(stock, weight, k) + Sum(stock - {k}, weight)
  }

  lemma {:induction false} FirstTaken(stock: map<Key, int>, weight: Key -> real) returns (k: Key)
    requires stock != map[]
    ensures k in stock && Sum(stock, weight) == Term(stock, weight, k) + Sum(stock - {k}, weight)
  {
    hide Term;
    k :| k in stock && Sum(stock, weight) == Term(stock, weight, k) + Sum(stock - {k}, weight);
  }

  /** It does not matter which position is taken first. */
  lemma {:induction false} SumWithout(stock: map<Key, int>, weight: Key -> real, k: Key)
    requires k in stock
    ensures Sum(stock, weight) == Term(stock, weight, k) + Sum(stock - {k}, weight)
    decreases |stock|
  {
    hide Sum;
    var first := FirstTaken(stock, weight);
    if first != k {
      SumWithout(stock - {first}, weight, k);
      SumWithout(stock - {k}, weight, first);
      assert stock - {first} - {k} == stock - {k} - {first};
    }
  }

  function Get(stock: map<Key, int>, k: Key): int {
    if k in stock then stock[k] else 0
  }

  /** `stock[k] = qty`, where a position with nothing is removed. */
  function Put(stock: map<Key, int>, k: Key, qty: int): map<Key, int> {
    if qty != 0 then stock[k := qty] else stock - {k}
  }

  /** The sum over all positions but one, and that one. */
  lemma {:induction false} SumSplit(stock: map<Key, int>, weight: Key -> real, k: Key)
    ensures Sum(stock, weight) == Sum(stock - {k}, weight) + Get(stock, k) as real * weight(k)
  {
    hide Sum;
    if k in stock {
      SumWithout(stock, weight, k);
    } else {
      assert stock - {k} == stock;
    }
  }

  lemma {:induction false} SumPut(stock: map<Key, int>, weight: Key -> real, k: Key, qty: int)
    ensures Sum(Put(stock, k, qty), weight) == Sum(stock, weight) + (qty - Get(stock, k)) as real * weight(k)
  {
    hide Sum;
    SumSplit(stock, weight, k);
    SumSplit(Put(stock, k, qty), weight, k);
    assert Put(stock, k, qty) - {k} == stock - {k};
    assert Get(Put(stock, k, qty), k) == qty;
  }

  lemma {:induction false} SameWeights(stock: map<Key, int>, a: Key -> real, b: Key -> real)
    requires forall k :: k in stock ==> a(k) == b(k)
    ensures Sum(stock, a) == Sum(stock, b)
    decreases |stock|
  {
    hide Sum;
    if stock == map[] {
      SumOfNothing(a);
      SumOfNothing(b);
    } else {
      var k := FirstTaken(stock, a);
      SumWithout(stock, b, k);
      SameWeights(stock - {k}, a, b);
    }
  }

  lemma {:induction false} SumOfNothing(weight: Key -> real)
    ensures Sum(map[], weight) == 0.0
  {
  }

  // ------------------------------------------------------------------------ the class

  predicate Known(lots: map<string, Lot>, items: map<string, Item>, no: string) {
    no in lots && lots[no].sku in items
  }

  function OfSku(lots: map<string, Lot>, sku: string): Key -> real {
    (k: Key) => if k.lot in lots && lots[k.lot].sku == sku then 1.0 else 0.0
  }

  /** Cases for one piece, at one location. */
  function AtLocation(lots: map<string, Lot>, items: map<string, Item>, code: string): Key -> real {
    (k: Key) =>
      if k.location == code && Known(lots, items, k.lot) && items[lots[k.lot].sku].caseQty > 0
      then 1.0 / items[lots[k.lot].sku].caseQty as real else 0.0
  }

  /** `defaultdict` lookups. */
  function Keys(pickable: map<string, set<Key>>, sku: string): set<Key> {
    if sku in pickable then pickable[sku] else {}
  }

  function Pieces(onHand: map<string, int>, sku: string): int {
    if sku in onHand then onHand[sku] else 0
  }

  function Cases(used: map<string, real>, code: string): real {
    if code in used then used[code] else 0.0
  }

  predicate StockOk(lots: map<string, Lot>, items: map<string, Item>, stock: map<Key, int>) {
    forall k :: k in stock ==> stock[k] != 0 && Known(lots, items, k.lot)
  }

  /** Each index is what the stock says. */
  ghost predicate PickableOk(lots: map<string, Lot>, stock: map<Key, int>, pickable: map<string, set<Key>>) {
    forall sku, k ::
      k in Keys(pickable, sku) <==> k in stock && stock[k] > 0 && k.lot in lots && lots[k.lot].sku == sku
  }

  ghost predicate OnHandOk(lots: map<string, Lot>, stock: map<Key, int>, onHand: map<string, int>) {
    forall sku :: Pieces(onHand, sku) as real == Sum(stock, OfSku(lots, sku))
  }

  ghost predicate UsedOk(lots: map<string, Lot>, items: map<string, Item>, stock: map<Key, int>,
                         used: map<string, real>) {
    forall code :: Cases(used, code) == Sum(stock, AtLocation(lots, items, code))
  }

  lemma {:induction false} PickablePut(lots: map<string, Lot>, stock: map<Key, int>, pickable: map<string, set<Key>>,
                                       k: Key, qty: int)
    requires PickableOk(lots, stock, pickable) && k.lot in lots
    ensures var sku := lots[k.lot].sku; var was := Keys(pickable, sku);
      PickableOk(lots, Put(stock, k, qty), pickable[sku := if qty > 0 then was + {k} else was - {k}])
  {
    var sku := lots[k.lot].sku;
    var was := Keys(pickable, sku);
    var now := pickable[sku := if qty > 0 then was + {k} else was - {k}];
    var put := Put(stock, k, qty);
    forall s, j ensures j in Keys(now, s) <==> j in put && put[j] > 0 && j.lot in lots && lots[j.lot].sku == s {
      assert j in Keys(pickable, s) <==> j in stock && stock[j] > 0 && j.lot in lots && lots[j.lot].sku == s;
    }
  }

  lemma {:induction false} OnHandPut(lots: map<string, Lot>, stock: map<Key, int>, onHand: map<string, int>, k: Key,
                                     diff: int)
    requires OnHandOk(lots, stock, onHand) && k.lot in lots
    ensures var sku := lots[k.lot].sku;
      OnHandOk(lots, Put(stock, k, Get(stock, k) + diff), onHand[sku := Pieces(onHand, sku) + diff])
  {
    hide Sum, Put;
    var sku := lots[k.lot].sku;
    var now := onHand[sku := Pieces(onHand, sku) + diff];
    forall s ensures Pieces(now, s) as real == Sum(Put(stock, k, Get(stock, k) + diff), OfSku(lots, s)) {
      SumPut(stock, OfSku(lots, s), k, Get(stock, k) + diff);
      assert Pieces(onHand, s) as real == Sum(stock, OfSku(lots, s));
    }
  }

  lemma {:induction false} UsedPut(lots: map<string, Lot>, items: map<string, Item>, stock: map<Key, int>,
                                   used: map<string, real>, k: Key, diff: int)
    requires UsedOk(lots, items, stock, used) && Known(lots, items, k.lot) && items[lots[k.lot].sku].caseQty > 0
    ensures var caseQty := items[lots[k.lot].sku].caseQty;
      UsedOk(lots, items, Put(stock, k, Get(stock, k) + diff),
             used[k.location := Cases(used, k.location) + diff as real / caseQty as real])
  {
    hide Sum, Put;
    var caseQty := items[lots[k.lot].sku].caseQty;
    var now := used[k.location := Cases(used, k.location) + diff as real / caseQty as real];
    forall code ensures Cases(now, code) == Sum(Put(stock, k, Get(stock, k) + diff), AtLocation(lots, items, code)) {
      SumPut(stock, AtLocation(lots, items, code), k, Get(stock, k) + diff);
      assert Cases(used, code) == Sum(stock, AtLocation(lots, items, code));
    }
  }

  /** A delivery that is due: item, cases, its new lot, and the shelves of its zone in some order. */
  datatype Delivery = Delivery(item: Item, cases: int, lot: Lot, shelves: seq<Location>)

  /** What the dice say about moving and adjusting. */
  datatype Choice = NoChange | ToShelf(from: Key, dest: Location) | ByPieces(position: Key, pieces: int)

  datatype Order = Order(sku: string, want: int)

  /** How many cases the movements put at a location. */
  function CaseSum(lots: map<string, Lot>, items: map<string, Item>, rows: seq<Movement>, code: string): real {
    if rows == [] then 0.0
    else
      var m := rows[|rows| - 1];
      CaseSum(lots, items, rows[..|rows| - 1], code) + CasesOf(lots, items, m, code)
  }

  function CasesOf(lots: map<string, Lot>, items: map<string, Item>, m: Movement, code: string): real {
    if m.key.location == code && Known(lots, items, m.key.lot) && items[lots[m.key.lot].sku].caseQty > 0
    then m.qty as real / items[lots[m.key.lot].sku].caseQty as real else 0.0
  }

  class Stock {
    const items: map<string, Item>
    const locations: seq<Location>
    var lots: map<string, Lot>
    var stock: map<Key, int>
    var pickable: map<string, set<Key>>
    var onHand: map<string, int>
    var usedCases: map<string, real>

    /** The indexes are what the stock says. */
    ghost predicate Valid()
      reads this
    {
      && (forall sku :: sku in items ==> items[sku].sku == sku && items[sku].caseQty > 0)
      && StockOk(lots, items, stock)
      && PickableOk(lots, stock, pickable)
      && OnHandOk(lots, stock, onHand)
      && UsedOk(lots, items, stock, usedCases)
    }

    constructor (items: map<string, Item>, locations: seq<Location>, lots: map<string, Lot>)
      requires forall sku :: sku in items ==> items[sku].sku == sku && items[sku].caseQty > 0
      ensures Valid() && stock == map[] && pickable == map[] && onHand == map[] && usedCases == map[]
      ensures this.items == items && this.locations == locations && this.lots == lots
    {
      this.items, this.locations, this.lots := items, locations, lots;
      stock, pickable, onHand, usedCases := map[], map[], map[], map[];
    }

    /** `floor(capacity - used)`. */
    function FreeCases(loc: Location): int
      reads this
    {
      (loc.capacityCases as real - Cases(usedCases, loc.code)).Floor
    }

    /** One row of `apply`: a row of an unknown lot or item does not count. */
    method ApplyRow(m: Movement)
      requires Valid()
      modifies this`stock, this`pickable, this`onHand, this`usedCases
      ensures Valid()
      ensures forall k ::
        Get(stock, k) == Get(old(stock), k) + if Known(lots, items, k.lot) && m.key == k then m.qty else 0
      ensures forall code :: Cases(usedCases, code) == Cases(old(usedCases), code) + CasesOf(lots, items, m, code)
    {
      hide StockOk, PickableOk, OnHandOk, UsedOk, Put;
      if Known(lots, items, m.key.lot) {
        var item := items[lots[m.key.lot].sku];
        var qty := Get(stock, m.key) + m.qty;
        StockPut(lots, items, stock, m.key, qty);
        PickablePut(lots, stock, pickable, m.key, qty);
        OnHandPut(lots, stock, onHand, m.key, m.qty);
        UsedPut(lots, items, stock, usedCases, m.key, m.qty);
        stock := Put(stock, m.key, qty);
        var keys := Keys(pickable, item.sku);
        pickable := pickable[item.sku := if qty > 0 then keys + {m.key} else keys - {m.key}];
        onHand := onHand[item.sku := Pieces(onHand, item.sku) + m.qty];
        usedCases := usedCases[m.key.location := Cases(usedCases, m.key.location)
          + m.qty as real / item.caseQty as real];
      }
    }

    /** `apply`. */
    method Apply(movements: seq<Movement>)
      requires Valid()
      modifies this`stock, this`pickable, this`onHand, this`usedCases
      ensures Valid()
      ensures forall k ::
        Get(stock, k) == Get(old(stock), k) + if Known(lots, items, k.lot) then Balance(movements, k) else 0
      ensures forall code ::
        Cases(usedCases, code) == Cases(old(usedCases), code) + CaseSum(lots, items, movements, code)
    {
      for i := 0 to |movements|
        invariant Valid()
        invariant forall k ::
          Get(stock, k) == Get(old(stock), k) + if Known(lots, items, k.lot) then Balance(movements[..i], k) else 0
        invariant forall code ::
          Cases(usedCases, code) == Cases(old(usedCases), code) + CaseSum(lots, items, movements[..i], code)
      {
        hide Valid, CasesOf, Get, Known;
        assert movements[..i + 1][..i] == movements[..i];
        ApplyRow(movements[i]);
      }
      assert movements[..|movements|] == movements;
    }

    /** `_commit`; a lot that is known already keeps its item. */
    method Commit(event: Event)
      requires Valid()
      requires forall i :: 0 <= i < |event.lots| && event.lots[i].no in lots ==>
                 event.lots[i].sku == lots[event.lots[i].no].sku
      modifies this`lots, this`stock, this`pickable, this`onHand, this`usedCases
      ensures Valid()
      ensures lots == WithLots(old(lots), event.lots)
      ensures forall k ::
        Get(stock, k) == Get(old(stock), k) + if Known(lots, items, k.lot) then Balance(event.movements, k) else 0
      ensures forall code ::
        Cases(usedCases, code) == Cases(old(usedCases), code) + CaseSum(lots, items, event.movements, code)
    {
      var all := lots;
      for i := 0 to |event.lots|
        invariant all == WithLots(lots, event.lots[..i])
      {
        assert event.lots[..i + 1][..i] == event.lots[..i];
        all := all[event.lots[i].no := event.lots[i]];
      }
      assert event.lots[..|event.lots|] == event.lots;
      NewLots(lots, event.lots);
      LotsAdded(lots, all, items, stock, pickable, onHand, usedCases);
      lots := all;
      Apply(event.movements);
    }

    /** No position holds less than nothing. */
    ghost predicate NonNegative()
      reads this
    {
      forall k :: Get(stock, k) >= 0
    }

    /** No shelf holds more than its capacity. */
    ghost predicate WithinCapacity()
      reads this
    {
      forall loc :: loc in locations ==> Cases(usedCases, loc.code) <= loc.capacityCases as real
    }

    // ------------------------------------------------------------- what can happen next

    predicate Expired(k: Key, today: int)
      requires Valid()
      reads this
    {
      k in stock && stock[k] > 0 && k.lot in lots && lots[k.lot].expiry.Some? && lots[k.lot].expiry.value < today
    }

    ghost predicate FirstExpired(k: Key, today: int)
      requires Valid()
      reads this
    {
      Expired(k, today) && forall j :: Expired(j, today) ==> KeyUpTo(k, j)
    }

    /** `_dispose_expired`: all of the first expired position. */
    method DisposeExpired(now: int, today: int) returns (event: Option<Event>)
      requires Valid()
      ensures event.None? <==> forall k :: !Expired(k, today)
      ensures event.Some? ==>
        exists k :: FirstExpired(k, today) && event.value == Event([], [Movement(now, Disposal, k, -stock[k])])
      ensures event.None? <==> forall k :: k in stock && stock[k] > 0 && k.lot in lots && lots[k.lot].expiry.Some? ==>
        today <= lots[k.lot].expiry.value
      ensures event.Some? ==>
        && event.value.lots == [] && |event.value.movements| == 1
        && var m := event.value.movements[0];
           && m.kind == Disposal && m.key in stock && stock[m.key] > 0 && m.qty == -stock[m.key]
           && m.key.lot in lots && lots[m.key.lot].expiry.Some? && lots[m.key.lot].expiry.value < today
           && forall k ::
                (k in stock && stock[k] > 0 && k.lot in lots && lots[k.lot].expiry.Some?
                 && lots[k.lot].expiry.value < today) ==> KeyUpTo(m.key, k)
    {
      hide StockOk, PickableOk, OnHandOk, UsedOk, KeyUpTo;
      var expired := set k | k in stock && Expired(k, today);
      if expired == {} {
        forall k | k in stock && stock[k] > 0 && k.lot in lots && lots[k.lot].expiry.Some?
          ensures !Expired(k, today)
        {
          assert k !in expired;
        }
        assert forall k :: Expired(k, today) ==> k in expired;
        return None;
      }
      LeastExists(expired);
      assert forall k :: Expired(k, today) ==> k in expired;
      var k :| k in expired && forall j :: j in expired ==> KeyUpTo(k, j);
      assert FirstExpired(k, today);
      return Some(Event([], [Movement(now, Disposal, k, -stock[k])]));
    }

    /** `_put_away`: a new lot, on the shelves that have room. */
    method PutAway(item: Item, cases: int, now: int, lot: Lot, shelves: seq<Location>) returns (event: Option<Event>)
      ensures var rows := Puts(usedCases, item, cases, now, lot, shelves);
        event == if rows == [] then None else Some(Event([lot], rows))
      ensures cases >= 0 && event.Some? ==>
        Quantity(event.value.movements)
          == item.caseQty * if RoomOn(usedCases, shelves) < cases then RoomOn(usedCases, shelves) else cases
    {
      hide RoomOn, Quantity;
      if cases >= 0 {
        PutsEnough(usedCases, item, cases, now, lot, shelves);
      }
      var rows: seq<Movement> := [];
      var left := cases;
      assert shelves[0..] == shelves;
      for i := 0 to |shelves|
        invariant rows + Puts(usedCases, item, left, now, lot, shelves[i..])
          == Puts(usedCases, item, cases, now, lot, shelves)
      {
        var free := FreeCases(shelves[i]);
        var put := if free < left then free else left;
        assert shelves[i..][1..] == shelves[i + 1..];
        if put > 0 {
          var row := Movement(now, Arrival, Key(lot.no, shelves[i].code), put * item.caseQty);
          Associative(rows, [row], Puts(usedCases, item, left - put, now, lot, shelves[i + 1..]));
          rows := rows + [row];
          left := left - put;
          if left <= 0 {
            break;
          }
        }
      }
      assert rows + [] == rows;
      return if rows == [] then None else Some(Event([lot], rows));
    }

    /** The transfer of `_move_or_adjust` from a position to a shelf that has room. */
    method Move(k: Key, dest: Location, now: int) returns (event: Option<Event>)
      requires Valid() && k in stock && stock[k] > 0
      ensures event.Some? <==> dest.code != k.location && FreeCases(dest) > 0
      ensures event.Some? ==>
        var room := FreeCases(dest) * items[lots[k.lot].sku].caseQty;
        var moved := if stock[k] < room then stock[k] else room;
        event.value
          == Event([], [Movement(now, Transfer, k, -moved), Movement(now, Transfer, Key(k.lot, dest.code), moved)])
    {
      if dest.code == k.location || FreeCases(dest) <= 0 {
        return None;
      }
      var room := FreeCases(dest) * items[lots[k.lot].sku].caseQty;
      var moved := if stock[k] < room then stock[k] else room;
      return Some(
        Event([], [Movement(now, Transfer, k, -moved), Movement(now, Transfer, Key(k.lot, dest.code), moved)]));
    }

    /** There is room for a piece at the location of a position. */
    predicate Room(k: Key)
      reads this
    {
      exists loc :: loc in locations && loc.code == k.location && FreeCases(loc) >= 1
    }

    /** The adjustment of `_move_or_adjust`: by a few pieces, up only where there is room. */
    method Adjust(k: Key, choice: int, now: int) returns (event: Event)
      requires k in stock && stock[k] > 0
      requires choice in (if Room(k) then {-3, -2, -1, 1, 2} else {-2, -1})
      ensures event == Event([], [Movement(now, Adjustment, k, if choice < -stock[k] then -stock[k] else choice)])
    {
      return Event([], [Movement(now, Adjustment, k, if choice < -stock[k] then -stock[k] else choice)]);
    }

    /** `sorted(pickable, key=...)`: by expiry, and then by position. */
    method ByExpiry(sku: string) returns (keys: seq<Key>)
      requires Valid()
      ensures Distinct(keys) && (forall k :: k in keys <==> k in Keys(pickable, sku))
      ensures forall i, j :: 0 <= i < j < |keys| ==> Sooner(lots, keys[i], keys[j])
    {
      keys := [];
      var rest := Keys(pickable, sku);
      while rest != {}
        invariant Distinct(keys) && rest <= Keys(pickable, sku)
        invariant forall k :: k in keys <==> k in Keys(pickable, sku) && k !in rest
        invariant forall i, j :: 0 <= i < j < |keys| ==> Sooner(lots, keys[i], keys[j])
        invariant forall i, k :: 0 <= i < |keys| && k in rest ==> Sooner(lots, keys[i], k)
        decreases rest
      {
        FirstExists(lots, rest);
        var k :| k in rest && forall j :: j in rest ==> Sooner(lots, k, j);
        keys, rest := keys + [k], rest - {k};
      }
    }

    /** The positions with stock of an item, as they are to be emptied. */
    ghost predicate InOrder(keys: seq<Key>, sku: string)
      reads this
    {
      && Distinct(keys) && (forall k :: k in keys <==> k in Keys(pickable, sku))
      && (forall k :: k in keys ==> k in stock)
      && (forall i, j :: 0 <= i < j < |keys| ==> Sooner(lots, keys[i], keys[j]))
    }

    /** `_pick`: what expires first is shipped first. */
    method Pick(sku: string, want: int, now: int) returns (event: Event, ghost keys: seq<Key>)
      requires Valid() && want > 0
      ensures InOrder(keys, sku) && forall k :: k in keys ==> stock[k] > 0
      ensures event == Event([], Picks(stock, keys, want, now))
      ensures NonNegative() ==>
        -Quantity(event.movements) == if Pieces(onHand, sku) < want then Pieces(onHand, sku) else want
      ensures ExpiringFirst(lots, event.movements)
    {
      hide ExpiringFirst;
      hide Picks, PiecesAt, Sum, OnHandOk, UsedOk, Sooner, Quantity;
      var order := ByExpiry(sku);
      keys := order;
      var rows: seq<Movement> := [];
      var left := want;
      PicksAt(stock, order, 0, want, now);
      for i := 0 to |order|
        invariant left > 0 && forall k :: k in order[i..] ==> k in order
        invariant rows + Picks(stock, order[i..], left, now) == Picks(stock, order, want, now)
      {
        PicksAt(stock, order, i, left, now);
        assert order[i] in order;
        var take := if stock[order[i]] < left then stock[order[i]] else left;
        var row := Movement(now, Shipment, order[i], -take);
        Associative(rows, [row], Picks(stock, order[i + 1..], left - take, now));
        rows := rows + [row];
        left := left - take;
        if left <= 0 {
          NothingWanted(stock, order[i + 1..], left, now);
          break;
        }
      }
      NothingWanted(stock, order[|order|..], left, now);
      assert rows + [] == rows;
      if NonNegative() {
        forall k | k in stock ensures stock[k] > 0 {
          assert Get(stock, k) >= 0;
        }
        PickTotal(lots, stock, onHand, sku, keys, want, now);
      }
      PicksExpiringFirst(lots, stock, keys, want, now);
      return Event([], rows), order;
    }

    /** What the random choices can be. */
    predicate Possible(delivery: Option<Delivery>, choice: Choice, order: Order)
      reads this
    {
      && (delivery.Some? ==>
            var d := delivery.value;
            && d.item.sku in items && items[d.item.sku] == d.item
            && d.lot.sku == d.item.sku && d.lot.no !in lots
            && EachCodeOnce(d.shelves) && forall shelf :: shelf in d.shelves ==> shelf in locations)
      && (choice.ToShelf? ==> choice.from in stock && stock[choice.from] > 0 && choice.dest in locations)
      && (choice.ByPieces? ==>
            && choice.position in stock && stock[choice.position] > 0
            && choice.pieces in (if Room(choice.position) then {-3, -2, -1, 1, 2} else {-2, -1}))
      && order.want > 0
    }

    ghost function Delivered(now: int, delivery: Option<Delivery>): seq<Movement>
      reads this
    {
      if delivery.None? then []
      else
        var d := delivery.value;
        Puts(usedCases, d.item, d.cases, now, d.lot, d.shelves)
    }

    ghost function Changed(now: int, choice: Choice): Option<Event>
      requires Valid()
      requires choice.ToShelf? ==> choice.from in stock
      requires choice.ByPieces? ==> choice.position in stock
      reads this
    {
      match choice
      case NoChange => None
      case ToShelf(k, dest) =>
        if dest.code == k.location || FreeCases(dest) <= 0 then None
        else
          var room := FreeCases(dest) * items[lots[k.lot].sku].caseQty;
          var moved := if stock[k] < room then stock[k] else room;
          Some(Event([], [Movement(now, Transfer, k, -moved), Movement(now, Transfer, Key(k.lot, dest.code), moved)]))
      case ByPieces(k, pieces) =>
        Some(Event([], [Movement(now, Adjustment, k, if pieces < -stock[k] then -stock[k] else pieces)]))
    }

    /** The event of a step: disposal, or else a delivery, or else a change, or else a shipment. */
    ghost predicate Decided(now: int, today: int, delivery: Option<Delivery>, choice: Choice, order: Order,
                            event: Event)
      requires Valid() && Possible(delivery, choice, order)
      reads this
    {
      if exists k :: Expired(k, today) then
        exists k :: FirstExpired(k, today) && event == Event([], [Movement(now, Disposal, k, -stock[k])])
      else if Delivered(now, delivery) != [] then event == Event([delivery.value.lot], Delivered(now, delivery))
      else if Changed(now, choice).Some? then event == Changed(now, choice).value
      else exists keys :: InOrder(keys, order.sku) && event == Event([], Picks(stock, keys, order.want, now))
    }

    /** `step`, without `_commit`. */
    method Decide(now: int, today: int, delivery: Option<Delivery>, choice: Choice, order: Order) returns (event: Event)
      requires Valid() && EachCodeOnce(locations) && Possible(delivery, choice, order)
      ensures event.lots == [] || (delivery.Some? && event.lots == [delivery.value.lot])
      ensures Decided(now, today, delivery, choice, order, event)
      ensures (choice.ByPieces? ==> choice.pieces <= items[lots[choice.position.lot].sku].caseQty) ==>
        Safe(WithLots(lots, event.lots), items, stock, usedCases, locations, event.movements)
      ensures forall k :: Get(stock, k) >= 0 && Known(WithLots(lots, event.lots), items, k.lot) ==>
        Get(stock, k) + Balance(event.movements, k) >= 0
    {
      hide Safe, Balance, CaseSum, Picks, Puts, StockOk, PickableOk, OnHandOk, UsedOk, Changed, InOrder, WithLots,
        FirstExpired, Known, Expired, KeyUpTo, RoomOn, Quantity;
      NoLots(lots);
      var disposal := DisposeExpired(now, today);
      if disposal.Some? {
        DisposalIsSafe(disposal.value, now, today);
        return disposal.value;
      }
      if delivery.Some? {
        var d := delivery.value;
        var arrival := PutAway(d.item, d.cases, now, d.lot, d.shelves);
        if arrival.Some? {
          DeliveryIsSafe(d, now);
          return arrival.value;
        }
      }
      var change := Change(now, choice);
      if change.Some? {
        return change.value;
      }
      ghost var keys;
      event, keys := Pick(order.sku, order.want, now);
      PickIsSafe(keys, order.sku, order.want, now);
    }

    lemma {:induction false} DisposalIsSafe(event: Event, now: int, today: int)
      requires Valid()
      requires exists k :: FirstExpired(k, today) && event == Event([], [Movement(now, Disposal, k, -stock[k])])
      ensures Safe(lots, items, stock, usedCases, locations, event.movements)
      ensures forall k :: Get(stock, k) >= 0 && Known(lots, items, k.lot) ==>
        Get(stock, k) + Balance(event.movements, k) >= 0
      ensures exists k :: Expired(k, today)
    {
      hide Safe, Balance, CaseSum, StockOk, PickableOk, OnHandOk, UsedOk, KeyUpTo;
      var k :| FirstExpired(k, today) && event == Event([], [Movement(now, Disposal, k, -stock[k])]);
      TakeIsSafe(lots, items, stock, usedCases, locations, event.movements[0]);
      SafeMeans(lots, items, stock, usedCases, locations, event.movements);
    }

    lemma {:induction false} DeliveryIsSafe(d: Delivery, now: int)
      requires Valid() && EachCodeOnce(locations) && Possible(Some(d), NoChange, Order("", 1))
      ensures var with, rows := WithLots(lots, [d.lot]), Puts(usedCases, d.item, d.cases, now, d.lot, d.shelves);
        && Safe(with, items, stock, usedCases, locations, rows)
        && forall k :: Get(stock, k) >= 0 && Known(with, items, k.lot) ==> Get(stock, k) + Balance(rows, k) >= 0
    {
      hide Safe, Balance, CaseSum, Puts, StockOk, PickableOk, OnHandOk, UsedOk;
      var with := WithLots(lots, [d.lot]);
      OneLot(lots, d.lot);
      PutsAreSafe(with, items, stock, usedCases, locations, d.item, d.cases, now, d.lot, d.shelves);
      SafeMeans(with, items, stock, usedCases, locations, Puts(usedCases, d.item, d.cases, now, d.lot, d.shelves));
    }

    lemma {:induction false} PickIsSafe(keys: seq<Key>, sku: string, want: int, now: int)
      requires Valid() && InOrder(keys, sku) && forall k :: k in keys ==> stock[k] > 0
      ensures Safe(lots, items, stock, usedCases, locations, Picks(stock, keys, want, now))
      ensures forall k :: Get(stock, k) >= 0 && Known(lots, items, k.lot) ==>
        Get(stock, k) + Balance(Picks(stock, keys, want, now), k) >= 0
    {
      hide Safe, Balance, CaseSum, Picks, StockOk, PickableOk, OnHandOk, UsedOk;
      PicksAreSafe(lots, items, stock, usedCases, locations, keys, want, now);
      SafeMeans(lots, items, stock, usedCases, locations, Picks(stock, keys, want, now));
    }

    /** `_move_or_adjust`. */
    method Change(now: int, choice: Choice) returns (event: Option<Event>)
      requires Valid() && EachCodeOnce(locations) && Possible(None, choice, Order("", 1))
      ensures event == Changed(now, choice)
      ensures event.Some? ==> event.value.lots == []
      ensures event.Some? && (choice.ByPieces? ==> choice.pieces <= items[lots[choice.position.lot].sku].caseQty) ==>
        Safe(lots, items, stock, usedCases, locations, event.value.movements)
      ensures event.Some? ==> forall k :: Get(stock, k) >= 0 && Known(lots, items, k.lot) ==>
        Get(stock, k) + Balance(event.value.movements, k) >= 0
    {
      hide Safe, Balance, CaseSum, PickableOk, OnHandOk, UsedOk;
      event := None;
      match choice
      case NoChange =>
      case ToShelf(from, dest) =>
        event := Move(from, dest, now);
        if event.Some? {
          var rows := event.value.movements;
          MoveIsSafe(lots, items, stock, usedCases, locations, rows[0], rows[1], dest, FreeCases(dest));
          SafeMeans(lots, items, stock, usedCases, locations, rows);
        }
      case ByPieces(position, pieces) =>
        var adjusted := Adjust(position, pieces, now);
        AdjustIsSafe(adjusted.movements[0], choice);
        return Some(adjusted);
    }

    lemma {:induction false} AdjustIsSafe(m: Movement, choice: Choice)
      requires Valid() && EachCodeOnce(locations) && Possible(None, choice, Order("", 1)) && choice.ByPieces?
      requires m.key == choice.position
        && m.qty == if choice.pieces < -stock[m.key] then -stock[m.key] else choice.pieces
      ensures choice.pieces <= items[lots[m.key.lot].sku].caseQty ==>
        Safe(lots, items, stock, usedCases, locations, [m])
      ensures forall k :: Get(stock, k) >= 0 && Known(lots, items, k.lot) ==> Get(stock, k) + Balance([m], k) >= 0
    {
      hide Safe, Balance, CaseSum, PickableOk, OnHandOk, UsedOk;
      if choice.pieces <= 0 {
        TakeIsSafe(lots, items, stock, usedCases, locations, m);
        SafeMeans(lots, items, stock, usedCases, locations, [m]);
      } else {
        AddsOnly(m);
        if choice.pieces <= items[lots[m.key.lot].sku].caseQty {
          RoomIsFree(m.key);
          AddIsSafe(lots, items, stock, usedCases, locations, m);
        }
      }
    }

    lemma {:induction false} RoomIsFree(k: Key)
      requires EachCodeOnce(locations) && Room(k)
      ensures forall loc :: loc in locations && loc.code == k.location ==> FreeAt(usedCases, loc) >= 1
    {
      var there :| there in locations && there.code == k.location && FreeCases(there) >= 1;
      forall loc | loc in locations && loc.code == k.location ensures loc == there {
        var i :| 0 <= i < |locations| && locations[i] == loc;
        var j :| 0 <= j < |locations| && locations[j] == there;
      }
    }

    /**
     `step`, with `_commit`: the indexes stay right, no position becomes negative, and no
     shelf is filled over its capacity unless an adjustment adds more than a case.
     */
    method Step(now: int, today: int, delivery: Option<Delivery>, choice: Choice, order: Order) returns (event: Event)
      requires Valid() && NonNegative() && WithinCapacity()
      requires EachCodeOnce(locations) && Possible(delivery, choice, order)
      modifies this`lots, this`stock, this`pickable, this`onHand, this`usedCases
      ensures Valid() && NonNegative()
      ensures old(Decided(now, today, delivery, choice, order, event)) && lots == WithLots(old(lots), event.lots)
      ensures old(choice.ByPieces? ==> choice.pieces <= items[lots[choice.position.lot].sku].caseQty) ==>
        WithinCapacity()
      ensures forall k ::
        Get(stock, k) == Get(old(stock), k) + if Known(lots, items, k.lot) then Balance(event.movements, k) else 0
      ensures forall code ::
        Cases(usedCases, code) == Cases(old(usedCases), code) + CaseSum(lots, items, event.movements, code)
    {
      hide Decided;
      event := Decide(now, today, delivery, choice, order);
      ghost var fits := choice.ByPieces? ==> choice.pieces <= items[lots[choice.position.lot].sku].caseQty;
      ghost var was, used, with := stock, usedCases, WithLots(lots, event.lots);
      if fits {
        SafeMeans(with, items, was, used, locations, event.movements);
      }
      Commit(event);
    }
  }

  /** A shelf for two cases, and on it one piece that is a case. */
  method OnePiece() returns (w: Stock)
    ensures fresh(w) && w.Valid() && w.NonNegative() && w.WithinCapacity()
    ensures w.items == map["S" := Item("S", 1, "Z", 0)] && w.locations == [Location("A", "Z", 2)]
    ensures w.lots == map["L" := Lot("L", "S", 0, None)]
    ensures forall k :: Get(w.stock, k) == if k == Key("L", "A") then 1 else 0
    ensures Cases(w.usedCases, "A") == 1.0
  {
    hide Sum, OnHandOk, UsedOk, PickableOk, StockOk, Balance, CaseSum;
    var lot, row := Lot("L", "S", 0, None), Movement(0, Arrival, Key("L", "A"), 1);
    w := new Stock(map["S" := Item("S", 1, "Z", 0)], [Location("A", "Z", 2)], map[]);
    w.Commit(Event([lot], [row]));
    OneLot(map[], lot);
    SumsOfAll(w.lots, w.items, row);
  }

  /** A step that adds two pieces fills that shelf over its capacity. */
  method AdjustmentOverfills() returns (w: Stock)
    ensures fresh(w) && w.Valid() && w.NonNegative() && !w.WithinCapacity()
  {
    hide Sum, OnHandOk, UsedOk, PickableOk, StockOk, Balance, CaseSum, Picks;
    w := OnePiece();
    var k := Key("L", "A");
    assert Get(w.stock, k) == 1;
    var loc := w.locations[0];
    assert loc in w.locations && w.FreeCases(loc) == 1;
    var event := w.Step(1, 1, None, ByPieces(k, 2), Order("S", 1));
    assert event == Event([], [Movement(1, Adjustment, k, 2)]);
    OneLot(w.lots, Lot("L", "S", 0, None));
    SumsOfAll(w.lots, w.items, Movement(1, Adjustment, k, 2));
    assert loc in w.locations;
  }

  lemma {:induction false} NoLots(lots: map<string, Lot>)
    ensures WithLots(lots, []) == lots
  {
  }

  lemma {:induction false} OneLot(lots: map<string, Lot>, lot: Lot)
    ensures WithLots(lots, [lot]) == lots[lot.no := lot]
    ensures WithLots(lots, []) == lots
  {
    assert [lot][..0] == [];
  }

  lemma {:induction false} SumsOfAll(lots: map<string, Lot>, items: map<string, Item>, m: Movement)
    ensures forall k :: Balance([m], k) == if m.key == k then m.qty else 0
    ensures forall code :: CaseSum(lots, items, [m], code) == CasesOf(lots, items, m, code)
  {
    assert [] + [m] == [m];
    forall k, code
      ensures Balance([m], k) == if m.key == k then m.qty else 0
      ensures CaseSum(lots, items, [m], code) == CasesOf(lots, items, m, code)
    {
      SumsOfOne(lots, items, [], m, k, code);
    }
  }

  lemma {:induction false} AddsOnly(m: Movement)
    requires m.qty >= 0
    ensures forall k :: Balance([m], k) >= 0
  {
    assert [] + [m] == [m];
    forall k ensures Balance([m], k) >= 0 {
      SumsOfOne(map[], map[], [], m, k, "");
    }
  }

  lemma {:induction false} SafeMeans(lots: map<string, Lot>, items: map<string, Item>, stock: map<Key, int>,
                                     used: map<string, real>, locations: seq<Location>, rows: seq<Movement>)
    requires Safe(lots, items, stock, used, locations, rows)
    ensures forall k :: Get(stock, k) >= 0 && Known(lots, items, k.lot) ==> Get(stock, k) + Balance(rows, k) >= 0
    ensures forall loc :: loc in locations && Cases(used, loc.code) <= loc.capacityCases as real ==>
      Cases(used, loc.code) + CaseSum(lots, items, rows, loc.code) <= loc.capacityCases as real
  {
  }

  lemma {:induction false} PicksAt(stock: map<Key, int>, keys: seq<Key>, i: nat, want: int, now: int)
    requires i <= |keys| && forall k :: k in keys ==> k in stock
    ensures keys[0..] == keys && forall j, k :: 0 <= j <= |keys| && k in keys[j..] ==> k in keys
    ensures i < |keys| && want > 0 ==>
      keys[i] in keys &&
      (var take := if stock[keys[i]] < want then stock[keys[i]] else want;
       Picks(stock, keys[i..], want, now)
         == [Movement(now, Shipment, keys[i], -take)] + Picks(stock, keys[i + 1..], want - take, now))
  {
    if i < |keys| {
      assert keys[i..][1..] == keys[i + 1..];
    }
  }

  lemma {:induction false} NothingWanted(stock: map<Key, int>, keys: seq<Key>, want: int, now: int)
    requires (keys == [] || want <= 0) && forall k :: k in keys ==> k in stock
    ensures Picks(stock, keys, want, now) == []
  {
  }

  function FreeAt(used: map<string, real>, loc: Location): int {
    (loc.capacityCases as real - Cases(used, loc.code)).Floor
  }

  /** A new lot on the shelves, one after the other, as far as there is room. */
  function Puts(used: map<string, real>, item: Item, left: int, now: int, lot: Lot,
                shelves: seq<Location>): seq<Movement> {
    if shelves == [] || left <= 0 then []
    else
      var put := if FreeAt(used, shelves[0]) < left then FreeAt(used, shelves[0]) else left;
      if put <= 0 then Puts(used, item, left, now, lot, shelves[1..])
      else
        [Movement(now, Arrival, Key(lot.no, shelves[0].code), put * item.caseQty)]
        + Puts(used, item, left - put, now, lot, shelves[1..])
  }

  function Expiry(lots: map<string, Lot>, k: Key): Option<int> {
    if k.lot in lots then lots[k.lot].expiry else None
  }

  /** Something that does not expire comes last. */
  predicate NoLater(a: Option<int>, b: Option<int>) {
    b.None? || (a.Some? && a.value <= b.value)
  }

  predicate TextUpTo(a: string, b: string) {
    a == "" || (b != "" && (a[0] < b[0] || (a[0] == b[0] && TextUpTo(a[1..], b[1..]))))
  }

  /** Positions in the order of Python's tuples. */
  predicate KeyUpTo(a: Key, b: Key) {
    if a.lot == b.lot then TextUpTo(a.location, b.location) else TextUpTo(a.lot, b.lot)
  }

  /** By expiry, and then by position. */
  predicate Sooner(lots: map<string, Lot>, a: Key, b: Key) {
    NoLater(Expiry(lots, a), Expiry(lots, b)) && (Expiry(lots, a) == Expiry(lots, b) ==> KeyUpTo(a, b))
  }

  /** The order of texts: by the first character that differs, and a beginning comes first. */
  lemma {:induction false} TextUpToIs(a: string, b: string)
    ensures TextUpTo(a, b) <==>
      a <= b || exists n :: 0 <= n < |a| && n < |b| && a[..n] == b[..n] && a[n] < b[n]
  {
    if a != "" && b != "" && a[0] == b[0] {
      TextUpToIs(a[1..], b[1..]);
      assert a == [a[0]] + a[1..] && b == [b[0]] + b[1..];
      forall n | 0 <= n < |a[1..]| && n < |b[1..]| && a[1..][..n] == b[1..][..n]
        ensures a[..n + 1] == b[..n + 1]
      {
        assert a[..n + 1] == [a[0]] + a[1..][..n] && b[..n + 1] == [b[0]] + b[1..][..n];
      }
      forall n | 0 < n < |a| && n < |b| && a[..n] == b[..n] ensures a[1..][..n - 1] == b[1..][..n - 1] {
        assert a[1..][..n - 1] == a[..n][1..] && b[1..][..n - 1] == b[..n][1..];
      }
      if exists n :: 0 <= n < |a[1..]| && n < |b[1..]| && a[1..][..n] == b[1..][..n] && a[1..][n] < b[1..][n] {
        var n :| 0 <= n < |a[1..]| && n < |b[1..]| && a[1..][..n] == b[1..][..n] && a[1..][n] < b[1..][n];
        assert a[..n + 1] == b[..n + 1] && a[n + 1] < b[n + 1];
      }
      if exists n :: 0 <= n < |a| && n < |b| && a[..n] == b[..n] && a[n] < b[n] {
        var n :| 0 <= n < |a| && n < |b| && a[..n] == b[..n] && a[n] < b[n];
        assert a[1..][..n - 1] == b[1..][..n - 1] && a[1..][n - 1] < b[1..][n - 1];
      }
    } else if a != "" && b != "" && a[0] < b[0] {
      assert a[..0] == b[..0];
    }
  }

  lemma {:induction false} TextOrder(a: string, b: string, c: string)
    ensures TextUpTo(a, a) && (TextUpTo(a, b) || TextUpTo(b, a))
    ensures TextUpTo(a, b) && TextUpTo(b, a) ==> a == b
    ensures TextUpTo(a, b) && TextUpTo(b, c) ==> TextUpTo(a, c)
  {
    if a != "" {
      TextOrder(a[1..], if b == "" then "" else b[1..], if c == "" then "" else c[1..]);
      if b != "" && a[0] == b[0] && a[1..] == b[1..] {
        assert a == [a[0]] + a[1..] && b == [b[0]] + b[1..];
      }
    }
  }

  lemma {:induction false} KeyOrder(a: Key, b: Key, c: Key)
    ensures KeyUpTo(a, a) && (KeyUpTo(a, b) || KeyUpTo(b, a))
    ensures KeyUpTo(a, b) && KeyUpTo(b, a) ==> a == b
    ensures KeyUpTo(a, b) && KeyUpTo(b, c) ==> KeyUpTo(a, c)
  {
    hide TextUpTo;
    TextOrder(a.lot, b.lot, c.lot);
    TextOrder(b.lot, c.lot, a.lot);
    TextOrder(a.location, b.location, c.location);
  }

  lemma {:induction false} LeastExists(rest: set<Key>)
    requires rest != {}
    ensures exists k :: k in rest && forall j :: j in rest ==> KeyUpTo(k, j)
  {
    hide KeyUpTo;
    FirstExists(map[], rest);
    var k :| k in rest && forall j :: j in rest ==> Sooner(map[], k, j);
  }

  lemma {:induction false} FirstExists(lots: map<string, Lot>, rest: set<Key>)
    requires rest != {}
    ensures exists k :: k in rest && forall j :: j in rest ==> Sooner(lots, k, j)
  {
    hide KeyUpTo;
    var x :| x in rest;
    KeyOrder(x, x, x);
    if rest == {x} {
      assert forall j :: j in rest ==> j == x;
    } else {
      FirstExists(lots, rest - {x});
      var k :| k in rest - {x} && forall j :: j in rest - {x} ==> Sooner(lots, k, j);
      KeyOrder(x, k, x);
      var first := if Sooner(lots, x, k) then x else k;
      forall j | j in rest ensures Sooner(lots, first, j) {
        if j != x {
          assert j in rest - {x};
          KeyOrder(x, k, j);
        }
      }
      assert first in rest;
    }
  }

  /** Positions emptied one after the other until there is enough. */
  function Picks(stock: map<Key, int>, keys: seq<Key>, want: int, now: int): seq<Movement>
    requires forall k :: k in keys ==> k in stock
  {
    if keys == [] || want <= 0 then []
    else
      assert keys[0] in keys;
      var take := if stock[keys[0]] < want then stock[keys[0]] else want;
      [Movement(now, Shipment, keys[0], -take)] + Picks(stock, keys[1..], want - take, now)
  }

  // ------------------------------------------------------------------- what a pick does

  function PiecesAt(stock: map<Key, int>, keys: seq<Key>): int
    requires forall k :: k in keys ==> k in stock
  {
    if keys == [] then 0 else
      assert keys[0] in keys;
      stock[keys[0]] + PiecesAt(stock, keys[1..])
  }

  function Quantity(rows: seq<Movement>): int {
    if rows == [] then 0 else rows[0].qty + Quantity(rows[1..])
  }

  /** A pick takes what is wanted, or all there is. */
  lemma {:induction false} PicksEnough(stock: map<Key, int>, keys: seq<Key>, want: int, now: int)
    requires forall k :: k in keys ==> k in stock && stock[k] > 0
    requires want >= 0
    ensures -Quantity(Picks(stock, keys, want, now))
      == if PiecesAt(stock, keys) < want then PiecesAt(stock, keys) else want
    ensures PiecesAt(stock, keys) >= 0
  {
    if keys != [] {
      assert keys[0] in keys;
      var take := if stock[keys[0]] < want then stock[keys[0]] else want;
      forall k | k in keys[1..] ensures k in keys {
      }
      PicksEnough(stock, keys[1..], want - take, now);
    }
  }

  /** First expired, first out: a position is touched only when all before it are emptied. */
  lemma {:induction false} PicksInOrder(stock: map<Key, int>, keys: seq<Key>, want: int, now: int)
    requires forall k :: k in keys ==> k in stock && stock[k] > 0
    ensures var rows := Picks(stock, keys, want, now);
      && |rows| <= |keys|
      && (forall i :: 0 <= i < |rows| ==> rows[i].key == keys[i] && 0 < -rows[i].qty <= stock[keys[i]])
      && (forall i :: 0 <= i < |rows| - 1 ==> -rows[i].qty == stock[keys[i]])
  {
    if keys != [] && want > 0 {
      assert keys[0] in keys;
      var take := if stock[keys[0]] < want then stock[keys[0]] else want;
      forall k | k in keys[1..] ensures k in keys {
      }
      PicksInOrder(stock, keys[1..], want - take, now);
    }
  }

  /**
   What expires is taken before what expires later, and that before what never expires;
   among what expires together, the lot whose number comes first.
   */
  ghost predicate ExpiringFirst(lots: map<string, Lot>, rows: seq<Movement>) {
    forall i, j :: 0 <= i < j < |rows| ==>
      && rows[i].key.lot in lots && rows[j].key.lot in lots
      && var a, b := lots[rows[i].key.lot], lots[rows[j].key.lot];
         && (b.expiry.Some? ==> a.expiry.Some? && a.expiry.value <= b.expiry.value)
         && (a.expiry == b.expiry && rows[i].key.lot != rows[j].key.lot ==>
               TextUpTo(rows[i].key.lot, rows[j].key.lot))
  }

  lemma {:induction false} PicksExpiringFirst(lots: map<string, Lot>, stock: map<Key, int>, keys: seq<Key>, want: int,
                                              now: int)
    requires forall k :: k in keys ==> k in stock && stock[k] > 0 && k.lot in lots
    requires forall i, j :: 0 <= i < j < |keys| ==> Sooner(lots, keys[i], keys[j])
    ensures ExpiringFirst(lots, Picks(stock, keys, want, now))
  {
    hide Picks, TextUpTo;
    PicksInOrder(stock, keys, want, now);
    var rows := Picks(stock, keys, want, now);
    forall i, j | 0 <= i < j < |rows|
      ensures rows[i].key in keys && rows[j].key in keys && Sooner(lots, rows[i].key, rows[j].key)
    {
    }
  }

  // -------------------------------------------------------------- what an event may do

  /** After the rows, no position is negative that was not, and no shelf over its capacity. */
  ghost predicate Safe(lots: map<string, Lot>, items: map<string, Item>, stock: map<Key, int>, used: map<string, real>,
                       locations: seq<Location>, rows: seq<Movement>)
  {
    && (forall k :: Get(stock, k) >= 0 ==>
      Get(stock, k) + (if Known(lots, items, k.lot) then Balance(rows, k) else 0) >= 0)
    && (forall loc :: loc in locations && Cases(used, loc.code) <= loc.capacityCases as real ==>
          Cases(used, loc.code) + CaseSum(lots, items, rows, loc.code) <= loc.capacityCases as real)
  }

  predicate EachCodeOnce(locations: seq<Location>) {
    forall i, j :: 0 <= i < j < |locations| ==> locations[i].code != locations[j].code
  }

  lemma {:induction false} SumsOfOne(lots: map<string, Lot>, items: map<string, Item>, rows: seq<Movement>, m: Movement,
                                     k: Key, code: string)
    ensures Balance(rows + [m], k) == Balance(rows, k) + if m.key == k then m.qty else 0
    ensures CaseSum(lots, items, rows + [m], code) == CaseSum(lots, items, rows, code) + CasesOf(lots, items, m, code)
    ensures Balance([], k) == 0 && CaseSum(lots, items, [], code) == 0.0
  {
    assert (rows + [m])[..|rows + [m]| - 1] == rows;
  }

  lemma {:induction false} CaseSumConcat(lots: map<string, Lot>, items: map<string, Item>, a: seq<Movement>,
                                         b: seq<Movement>, code: string)
    ensures CaseSum(lots, items, a + b, code) == CaseSum(lots, items, a, code) + CaseSum(lots, items, b, code)
  {
    if b == [] {
      assert a + b == a;
    } else {
      assert (a + b)[..|a + b| - 1] == a + b[..|b| - 1];
      CaseSumConcat(lots, items, a, b[..|b| - 1], code);
    }
  }

  lemma {:induction false} FirstRow(lots: map<string, Lot>, items: map<string, Item>, m: Movement, rest: seq<Movement>,
                                    k: Key, code: string)
    ensures Balance([m] + rest, k) == Balance(rest, k) + if m.key == k then m.qty else 0
    ensures CaseSum(lots, items, [m] + rest, code) == CaseSum(lots, items, rest, code) + CasesOf(lots, items, m, code)
  {
    BalanceConcat([m], rest, k);
    CaseSumConcat(lots, items, [m], rest, code);
    SumsOfOne(lots, items, [], m, k, code);
    assert [] + [m] == [m];
  }

  lemma {:induction false} TakingCases(lots: map<string, Lot>, items: map<string, Item>, m: Movement, code: string)
    requires m.qty <= 0
    ensures CasesOf(lots, items, m, code) <= 0.0
  {
  }

  /** Taking at most what is there is safe. */
  lemma {:induction false} TakeIsSafe(lots: map<string, Lot>, items: map<string, Item>, stock: map<Key, int>,
                                      used: map<string, real>, locations: seq<Location>, m: Movement)
    requires -Get(stock, m.key) <= m.qty <= 0
    ensures Safe(lots, items, stock, used, locations, [m])
  {
    assert [] + [m] == [m];
    forall k ensures Balance([m], k) == (if m.key == k then m.qty else 0) {
      SumsOfOne(lots, items, [], m, k, "");
    }
    forall code ensures CaseSum(lots, items, [m], code) <= 0.0 {
      SumsOfOne(lots, items, [], m, m.key, code);
      TakingCases(lots, items, m, code);
    }
  }

  /** Adding pieces where a case is free: safe as long as they are not more than a case. */
  lemma {:induction false} AddIsSafe(lots: map<string, Lot>, items: map<string, Item>, stock: map<Key, int>,
                                     used: map<string, real>, locations: seq<Location>, m: Movement)
    requires Known(lots, items, m.key.lot) && 0 <= m.qty <= items[lots[m.key.lot].sku].caseQty
    requires forall loc :: loc in locations && loc.code == m.key.location ==> FreeAt(used, loc) >= 1
    ensures Safe(lots, items, stock, used, locations, [m])
  {
    assert [] + [m] == [m];
    forall k ensures Balance([m], k) == (if m.key == k then m.qty else 0) {
      SumsOfOne(lots, items, [], m, k, "");
    }
    AtMostACase(m.qty, items[lots[m.key.lot].sku].caseQty);
    forall code ensures CaseSum(lots, items, [m], code) <= (if code == m.key.location then 1.0 else 0.0) {
      SumsOfOne(lots, items, [], m, m.key, code);
    }
  }

  lemma {:induction false} AtMostACase(qty: int, caseQty: int)
    requires 0 <= qty <= caseQty
    ensures caseQty > 0 ==> qty as real / caseQty as real <= 1.0
  {
  }

  /** With a free case on a shelf, so many pieces more do not take it over its capacity. */
  predicate StaysWithin(capacity: int, used: real, pieces: int, caseQty: int)
    requires caseQty > 0
  {
    (capacity as real - used).Floor >= 1 ==> used + pieces as real / caseQty as real <= capacity as real
  }

  /**
   An adjustment upwards of a position with at least a piece keeps every shelf with a free
   case within its capacity if and only if it is not more than a case; so an adjustment by 2
   needs two pieces to a case.
   */
  lemma {:induction false} AdjustmentFits(pieces: int, caseQty: int)
    requires pieces > 0 && caseQty > 0
    ensures (forall capacity, used :: used >= 1.0 / caseQty as real ==> StaysWithin(capacity, used, pieces, caseQty))
       <==> pieces <= caseQty
  {
    if pieces <= caseQty {
      AtMostACase(pieces, caseQty);
    } else {
      MoreThanACase(pieces, caseQty);
      AtMostACase(1, caseQty);
      assert !StaysWithin(2, 1.0, pieces, caseQty);
    }
  }

  lemma {:induction false} MoreThanACase(pieces: int, caseQty: int)
    requires 0 < caseQty < pieces
    ensures pieces as real / caseQty as real > 1.0
  {
    var x, d := pieces as real, caseQty as real;
    assert (x - d) / d > 0.0;
    assert (x - d) / d == x / d - d / d;
    assert d / d == 1.0;
  }

  /** What moves from a position to a shelf with room. */
  lemma {:induction false} MoveIsSafe(lots: map<string, Lot>, items: map<string, Item>, stock: map<Key, int>,
                                      used: map<string, real>, locations: seq<Location>,
                                      out: Movement, into: Movement, dest: Location, cases: int)
    requires Known(lots, items, out.key.lot) && items[lots[out.key.lot].sku].caseQty > 0
    requires into.key == Key(out.key.lot, dest.code) && out.key.location != dest.code
    requires out.qty == -into.qty && 0 <= into.qty <= Get(stock, out.key)
    requires cases <= FreeAt(used, dest) && into.qty <= cases * items[lots[out.key.lot].sku].caseQty
    requires dest in locations && EachCodeOnce(locations)
    ensures Safe(lots, items, stock, used, locations, [out, into])
    ensures forall lot ::
      (Balance([out, into], Key(lot, out.key.location)) + Balance([out, into], Key(lot, dest.code))) == 0
  {
    var caseQty := items[lots[out.key.lot].sku].caseQty;
    CasesMoved(into.qty, cases, caseQty);
    assert [] + [out] == [out] && [out] + [into] == [out, into];
    forall k ensures Balance([out, into], k)
      == (if out.key == k then out.qty else 0) + (if into.key == k then into.qty else 0) {
      SumsOfOne(lots, items, [], out, k, "");
      SumsOfOne(lots, items, [out], into, k, "");
    }
    forall code ensures CaseSum(lots, items, [out, into], code) <= (if code == dest.code then cases as real else 0.0) {
      SumsOfOne(lots, items, [], out, out.key, code);
      SumsOfOne(lots, items, [out], into, out.key, code);
      TakingCases(lots, items, out, code);
    }
    forall loc | loc in locations && loc.code == dest.code ensures loc == dest {
      var i :| 0 <= i < |locations| && locations[i] == loc;
      var j :| 0 <= j < |locations| && locations[j] == dest;
    }
  }

  lemma {:induction false} CasesMoved(qty: int, cases: int, caseQty: int)
    requires caseQty > 0 && 0 <= qty <= cases * caseQty
    ensures 0.0 <= qty as real / caseQty as real <= cases as real
  {
    assert qty as real <= cases as real * caseQty as real;
    DividedBy(qty as real, caseQty as real, cases as real);
  }

  lemma {:induction false} DividedBy(x: real, d: real, y: real)
    requires d > 0.0 && 0.0 <= x <= y * d
    ensures 0.0 <= x / d <= y
  {
    assert (y * d - x) / d >= 0.0;
    assert (y * d - x) / d == y - x / d;
  }

  lemma {:induction false} PicksAreSafe(lots: map<string, Lot>, items: map<string, Item>, stock: map<Key, int>,
                                        used: map<string, real>, locations: seq<Location>,
                                        keys: seq<Key>, want: int, now: int)
    requires Distinct(keys) && forall k :: k in keys ==> k in stock && stock[k] > 0
    ensures Safe(lots, items, stock, used, locations, Picks(stock, keys, want, now))
  {
    forall k ensures Balance(Picks(stock, keys, want, now), k) >= (if k in keys then -stock[k] else 0) {
      PicksSums(lots, items, stock, keys, want, now, k, "");
    }
    forall code ensures CaseSum(lots, items, Picks(stock, keys, want, now), code) <= 0.0 {
      PicksSums(lots, items, stock, keys, want, now, Key("", ""), code);
    }
  }

  lemma {:induction false} PicksSums(lots: map<string, Lot>, items: map<string, Item>, stock: map<Key, int>,
                                     keys: seq<Key>, want: int, now: int, k: Key, code: string)
    requires Distinct(keys) && forall j :: j in keys ==> j in stock && stock[j] > 0
    ensures (if k in keys then -stock[k] else 0) <= Balance(Picks(stock, keys, want, now), k) <= 0
    ensures CaseSum(lots, items, Picks(stock, keys, want, now), code) <= 0.0
  {
    hide Balance, CaseSum, CasesOf;
    SumsOfOne(lots, items, [], Movement(now, Shipment, k, 0), k, code);
    if keys != [] && want > 0 {
      assert keys[0] in keys;
      var take := if stock[keys[0]] < want then stock[keys[0]] else want;
      var row := Movement(now, Shipment, keys[0], -take);
      forall j | j in keys[1..] ensures j in keys {
      }
      PicksSums(lots, items, stock, keys[1..], want - take, now, k, code);
      FirstRow(lots, items, row, Picks(stock, keys[1..], want - take, now), k, code);
      TakingCases(lots, items, row, code);
      assert keys == [keys[0]] + keys[1..];
      assert keys[0] !in keys[1..];
    }
  }

  lemma {:induction false} PutsSums(lots: map<string, Lot>, items: map<string, Item>, used: map<string, real>,
                                    item: Item, left: int, now: int, lot: Lot, shelves: seq<Location>, loc: Location)
    requires item.caseQty > 0 && lot.no in lots && lots[lot.no] == lot && lot.sku in items && items[lot.sku] == item
    requires EachCodeOnce(shelves)
    requires forall shelf :: shelf in shelves && shelf.code == loc.code ==> shelf == loc
    ensures var sum := CaseSum(lots, items, Puts(used, item, left, now, lot, shelves), loc.code);
      if loc in shelves && FreeAt(used, loc) > 0 then sum <= FreeAt(used, loc) as real else sum <= 0.0
  {
    hide Balance, CaseSum;
    var k := Key("", "");
    SumsOfOne(lots, items, [], Movement(now, Arrival, k, 0), k, loc.code);
    if shelves != [] && left > 0 {
      var shelf := shelves[0];
      var put := if FreeAt(used, shelf) < left then FreeAt(used, shelf) else left;
      assert shelf in shelves && shelves == [shelf] + shelves[1..];
      PutsSums(lots, items, used, item, if put <= 0 then left else left - put, now, lot, shelves[1..], loc);
      if put > 0 {
        var row := Movement(now, Arrival, Key(lot.no, shelf.code), put * item.caseQty);
        FirstRow(lots, items, row, Puts(used, item, left - put, now, lot, shelves[1..]), k, loc.code);
        CasesMoved(put * item.caseQty, put, item.caseQty);
      }
    }
  }

  /** The cases for which there is room on these shelves. */
  function RoomOn(used: map<string, real>, shelves: seq<Location>): (room: int)
    ensures room >= 0
  {
    if shelves == [] then 0
    else RoomOn(used, shelves[1..]) + if FreeAt(used, shelves[0]) > 0 then FreeAt(used, shelves[0]) else 0
  }

  /** The free cases are the most that fit. */
  lemma {:induction false} FreeIsMost(used: map<string, real>, loc: Location, n: int)
    ensures n <= FreeAt(used, loc) <==> Cases(used, loc.code) + n as real <= loc.capacityCases as real
  {
    var room := loc.capacityCases as real - Cases(used, loc.code);
    assert n as real <= room ==> n <= room.Floor;
  }

  /** What is delivered is what is wanted, or all for which there is room. */
  lemma {:induction false} PutsEnough(used: map<string, real>, item: Item, left: int, now: int, lot: Lot,
                                      shelves: seq<Location>)
    requires left >= 0
    ensures Quantity(Puts(used, item, left, now, lot, shelves))
         == item.caseQty * if RoomOn(used, shelves) < left then RoomOn(used, shelves) else left
  {
    hide FreeAt, Quantity;
    NoRows();
    if shelves != [] && left > 0 {
      var free, room := FreeAt(used, shelves[0]), RoomOn(used, shelves[1..]);
      var put := if free < left then free else left;
      if put <= 0 {
        PutsEnough(used, item, left, now, lot, shelves[1..]);
      } else {
        PutsEnough(used, item, left - put, now, lot, shelves[1..]);
        OneMoreShelf(Movement(now, Arrival, Key(lot.no, shelves[0].code), put * item.caseQty),
                     Puts(used, item, left - put, now, lot, shelves[1..]), put,
                     if room < left - put then room else left - put, item.caseQty);
      }
    }
  }

  lemma {:induction false} NoRows()
    ensures Quantity([]) == 0
  {
  }

  lemma {:induction false} OneMoreShelf(row: Movement, rows: seq<Movement>, put: int, rest: int, caseQty: int)
    requires row.qty == put * caseQty && Quantity(rows) == caseQty * rest
    ensures Quantity([row] + rows) == caseQty * (put + rest)
  {
    assert ([row] + rows)[1..] == rows;
  }

  /** The shelves are filled in their order: later shelves change nothing for the earlier ones. */
  lemma {:induction false} PutsInOrder(used: map<string, real>, item: Item, left: int, now: int, lot: Lot,
                                       shelves: seq<Location>, n: nat)
    requires n <= |shelves|
    ensures Puts(used, item, left, now, lot, shelves[..n]) <= Puts(used, item, left, now, lot, shelves)
    decreases n
  {
    if n > 0 && left > 0 {
      var put := if FreeAt(used, shelves[0]) < left then FreeAt(used, shelves[0]) else left;
      assert shelves[..n][1..] == shelves[1..][..n - 1];
      PutsInOrder(used, item, if put <= 0 then left else left - put, now, lot, shelves[1..], n - 1);
    }
  }

  lemma {:induction false} PutsBalance(used: map<string, real>, item: Item, left: int, now: int, lot: Lot,
                                       shelves: seq<Location>, k: Key)
    requires item.caseQty > 0
    ensures Balance(Puts(used, item, left, now, lot, shelves), k) >= 0
  {
    if shelves != [] && left > 0 {
      var put := if FreeAt(used, shelves[0]) < left then FreeAt(used, shelves[0]) else left;
      PutsBalance(used, item, if put <= 0 then left else left - put, now, lot, shelves[1..], k);
      if put > 0 {
        var row := Movement(now, Arrival, Key(lot.no, shelves[0].code), put * item.caseQty);
        FirstRow(map[], map[], row, Puts(used, item, left - put, now, lot, shelves[1..]), k, "");
        assert put * item.caseQty > 0;
      }
    }
  }

  lemma {:induction false} PutsAreSafe(lots: map<string, Lot>, items: map<string, Item>, stock: map<Key, int>,
                                       used: map<string, real>, locations: seq<Location>,
                                       item: Item, left: int, now: int, lot: Lot, shelves: seq<Location>)
    requires item.caseQty > 0 && lot.no in lots && lots[lot.no] == lot && lot.sku in items && items[lot.sku] == item
    requires EachCodeOnce(locations) && EachCodeOnce(shelves) && forall shelf :: shelf in shelves ==> shelf in locations
    ensures Safe(lots, items, stock, used, locations, Puts(used, item, left, now, lot, shelves))
  {
    var rows := Puts(used, item, left, now, lot, shelves);
    forall k ensures Balance(rows, k) >= 0 {
      PutsBalance(used, item, left, now, lot, shelves, k);
    }
    forall loc | loc in locations && Cases(used, loc.code) <= loc.capacityCases as real
      ensures Cases(used, loc.code) + CaseSum(lots, items, rows, loc.code) <= loc.capacityCases as real
    {
      forall shelf | shelf in shelves && shelf.code == loc.code ensures shelf == loc {
        var i :| 0 <= i < |locations| && locations[i] == loc;
        var j :| 0 <= j < |locations| && locations[j] == shelf;
      }
      PutsSums(lots, items, used, item, left, now, lot, shelves, loc);
    }
  }

  lemma {:induction false} LotsAdded(was: map<string, Lot>, lots: map<string, Lot>, items: map<string, Item>,
                                     stock: map<Key, int>, pickable: map<string, set<Key>>,
                                     onHand: map<string, int>, used: map<string, real>)
    requires StockOk(was, items, stock) && forall no :: no in was ==> no in lots && lots[no].sku == was[no].sku
    requires PickableOk(was, stock, pickable) && OnHandOk(was, stock, onHand) && UsedOk(was, items, stock, used)
    ensures StockOk(lots, items, stock) && PickableOk(lots, stock, pickable)
    ensures OnHandOk(lots, stock, onHand) && UsedOk(lots, items, stock, used)
  {
    hide Sum;
    forall sku ensures Pieces(onHand, sku) as real == Sum(stock, OfSku(lots, sku)) {
      SameWeights(stock, OfSku(was, sku), OfSku(lots, sku));
    }
    forall code ensures Cases(used, code) == Sum(stock, AtLocation(lots, items, code)) {
      SameWeights(stock, AtLocation(was, items, code), AtLocation(lots, items, code));
    }
  }

  function WithLots(lots: map<string, Lot>, added: seq<Lot>): map<string, Lot> {
    if added == [] then lots
    else WithLots(lots, added[..|added| - 1])[added[|added| - 1].no := added[|added| - 1]]
  }

  lemma {:induction false} NewLots(lots: map<string, Lot>, added: seq<Lot>)
    requires forall i :: 0 <= i < |added| && added[i].no in lots ==> added[i].sku == lots[added[i].no].sku
    ensures forall no :: no in lots ==> no in WithLots(lots, added) && WithLots(lots, added)[no].sku == lots[no].sku
  {
    if added != [] {
      NewLots(lots, added[..|added| - 1]);
    }
  }

  lemma {:induction false} StockPut(lots: map<string, Lot>, items: map<string, Item>, stock: map<Key, int>, k: Key,
                                    qty: int)
    requires StockOk(lots, items, stock) && Known(lots, items, k.lot)
    ensures StockOk(lots, items, Put(stock, k, qty))
    ensures forall j :: Get(Put(stock, k, qty), j) == if j == k then qty else Get(stock, j)
  {
  }

  // --------------------------------------------------------- what is on hand and pickable

  lemma {:induction false} NoWeight(stock: map<Key, int>, weight: Key -> real)
    requires forall k :: k in stock ==> weight(k) == 0.0
    ensures Sum(stock, weight) == 0.0
    decreases |stock|
  {
    if stock == map[] {
      SumOfNothing(weight);
    } else {
      var k := FirstTaken(stock, weight);
      NoWeight(stock - {k}, weight);
    }
  }

  lemma {:induction false} SamePieces(stock: map<Key, int>, other: map<Key, int>, keys: seq<Key>)
    requires forall k :: k in keys ==> k in stock && k in other && stock[k] == other[k]
    ensures PiecesAt(stock, keys) == PiecesAt(other, keys)
  {
    if keys != [] {
      assert keys[0] in keys;
      forall k | k in keys[1..] ensures k in keys {
      }
      SamePieces(stock, other, keys[1..]);
    }
  }

  /** Without negative positions, what is on hand of an item is what can be picked of it. */
  lemma {:induction false} OnHandIsPickable(lots: map<string, Lot>, stock: map<Key, int>, sku: string, keys: seq<Key>)
    requires Distinct(keys)
    requires forall k :: k in keys <==> k in stock && k.lot in lots && lots[k.lot].sku == sku
    ensures Sum(stock, OfSku(lots, sku)) == PiecesAt(stock, keys) as real
    decreases |keys|
  {
    if keys == [] {
      forall k | k in stock ensures OfSku(lots, sku)(k) == 0.0 {
        assert k !in keys;
      }
      NoWeight(stock, OfSku(lots, sku));
    } else {
      var k, rest := keys[0], keys[1..];
      assert k in keys && keys == [k] + rest;
      SumWithout(stock, OfSku(lots, sku), k);
      forall j ensures j in rest <==> j in stock - {k} && j.lot in lots && lots[j.lot].sku == sku {
        assert j in rest <==> j in keys && j != k;
      }
      OnHandIsPickable(lots, stock - {k}, sku, rest);
      SamePieces(stock, stock - {k}, rest);
    }
  }

  /** A pick ships what is wanted, or everything that is on hand. */
  lemma {:induction false} PickTotal(lots: map<string, Lot>, stock: map<Key, int>, onHand: map<string, int>,
                                     sku: string, keys: seq<Key>, want: int, now: int)
    requires OnHandOk(lots, stock, onHand) && want > 0 && Distinct(keys)
    requires forall k :: k in keys <==> k in stock && stock[k] > 0 && k.lot in lots && lots[k.lot].sku == sku
    requires forall k :: k in stock ==> stock[k] > 0
    ensures -Quantity(Picks(stock, keys, want, now)) == if Pieces(onHand, sku) < want then Pieces(onHand, sku) else want
  {
    PicksEnough(stock, keys, want, now);
    OnHandIsPickable(lots, stock, sku, keys);
  }
}
