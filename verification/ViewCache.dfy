/**
 The shared view cache as the object of monitor_app/services/view_cache.py: fields updated
 in place, loops for pruning, and flights shared by reference.

 Each method is one section of code under the lock; `State()` is the abstract value, and
 every method's contract is the matching function of `ViewCacheSpec`.  `Valid` says that
 the byte count is the sum of the entry sizes, that entries and bytes are within the limits,
 and that the registered flights were created here, each with a number of its own.
 */
module ViewCache {
  import opened Options
  import opened Spec = ViewCacheSpec

  /** A computation in progress, shared by its leader and all its followers. */
  class FlightRecord {
    const token: Token
    const seqNo: nat
    var done: bool
    var outcome: Option<Outcome>

    constructor (token: Token, seqNo: nat)
      ensures this.token == token && this.seqNo == seqNo && !done && outcome == None
    {
      this.token, this.seqNo := token, seqNo;
      done, outcome := false, None;
    }

    function Id(): Flight {
      Flight(token, seqNo)
    }

    /** `ComputationPending.result`: `None` stands for LookupError. */
    method Result() returns (r: Option<Outcome>)
      ensures r.Some? <==> done && outcome.Some? && !outcome.value.Interrupted?
      ensures r.Some? ==> r == outcome
    {
      if !done || outcome.None? || outcome.value.Interrupted? {
        return None;
      }
      return outcome;
    }
  }

  datatype EnterResult =
    | EHit(value: Value)
    | EJoin(flight: FlightRecord)
    | EWouldWait(flight: FlightRecord)
    | ELead(flight: FlightRecord)

  datatype TimeoutResult =
    | TDone
    | TNewer(value: Value)
    | TSwitch(flight: FlightRecord)
    | TTakeOver(flight: FlightRecord)

  class Cache {
    const limits: Limits
    var store: seq<Slot>
    var bytes: int
    var prunedAt: Option<real>
    var flights: map<ViewKey, FlightRecord>
    var gen: nat
    var issued: nat
    /** Every flight ever created; the proofs need that `seqNo` identifies a flight. */
    ghost var created: set<FlightRecord>

    ghost predicate Valid()
      reads this
    {
      && limits.Enabled()
      && bytes == Total(store)
      && Fits(limits, store)
      && Registered()
    }

    ghost predicate Registered()
      reads `flights, `created, `issued
    {
      && (forall k :: k in flights ==> flights[k] in created)
      && (forall f :: f in created ==> f.seqNo <= issued)
      && (forall f, g :: f in created && g in created && f.seqNo == g.seqNo ==> f == g)
    }

    ghost function State(): State
      reads this
    {
      Spec.State(gen, store, prunedAt, FlightIds(), issued)
    }

    ghost function FlightIds(): map<ViewKey, Flight>
      reads `flights
    {
      map k | k in flights :: flights[k].Id()
    }

    /**
     The constructor's normalisation of its arguments; a `ttl` that is not positive turns
     the cache off (`get_or_compute` then never reaches the lock).
     */
    static function Normalised(ttlMs: int, maxAgeMs: int, maxEntries: int, maxBytes: Option<int>): (l: Limits)
      ensures l.Valid() && (l.Enabled() <==> ttlMs > 0)
      // Usable arguments are taken as they are.
      ensures ttlMs > 0 ==> l.ttl == ttlMs as real / 1000.0
      ensures maxAgeMs >= ttlMs > 0 ==> l.maxAge == maxAgeMs as real / 1000.0
      ensures maxEntries >= 1 ==> l.maxEntries == maxEntries
      ensures if maxBytes.Some? && maxBytes.value > 0 then l.maxBytes == Some(maxBytes.value) else l.maxBytes.None?
    {
      var ttl := (if ttlMs > 0 then ttlMs else 0) as real / 1000.0;
      var age := maxAgeMs as real / 1000.0;
      Limits(ttl, if age > ttl then age else ttl, if maxEntries > 1 then maxEntries else 1,
             if maxBytes.Some? && maxBytes.value > 0 then Some(maxBytes.value as nat) else None)
    }

    constructor (limits: Limits)
      requires limits.Enabled()
      ensures Valid() && State() == Spec.EMPTY && created == {}
      ensures this.limits == limits
    {
      this.limits := limits;
      store, bytes, prunedAt, flights := [], 0, None, map[];
      gen, issued, created := 0, 0, {};
      new;
      assert FlightIds() == map[];
    }

    /** `_remove_locked`. */
    method RemoveLocked(key: ViewKey)
      requires Unique(store) && bytes == Total(store)
      modifies `store, `bytes
      ensures store == Remove(old(store), key) && bytes == Total(store)
    {
      RemoveTotal(store, key);
      var entry := Find(store, key);
      if entry.Some? {
        store := Remove(store, key);
        bytes := bytes - entry.value.size;
      } else {
        RemoveAbsent(store, key);
      }
    }

    /** `_prune_locked`: drop what has expired, then the oldest until both limits hold. */
    method PruneLocked(now: real)
      requires Unique(store) && bytes == Total(store)
      modifies `store, `bytes, `prunedAt
      ensures store == Evicted(limits, Unexpired(limits, old(store), now))
      ensures bytes == Total(store) && prunedAt == Some(now) && Fits(limits, store)
    {
      PruneIsBounded(limits, State(), now);
      prunedAt := Some(now);
      RemoveExpired(now);
      EvictOldest();
    }

    method EvictOldest()
      requires bytes == Total(store)
      modifies `store, `bytes
      ensures store == Evicted(limits, old(store)) && bytes == Total(store)
    {
      while |store| > limits.maxEntries
        invariant LastEntries(store, limits.maxEntries) == LastEntries(old(store), limits.maxEntries)
        invariant bytes == Total(store)
      {
        bytes := bytes - store[0].entry.size;
        store := store[1..];
      }
      if limits.maxBytes.Some? {
        ghost var kept := store;
        while bytes > limits.maxBytes.value && store != []
          invariant FitBytes(store, limits.maxBytes.value) == FitBytes(kept, limits.maxBytes.value)
          invariant bytes == Total(store)
          decreases |store|
        {
          bytes := bytes - store[0].entry.size;
          store := store[1..];
        }
      }
    }

    /** The first loop of `_prune_locked`: collect the expired keys, then remove each one. */
    method RemoveExpired(now: real)
      requires Unique(store) && bytes == Total(store)
      modifies `store, `bytes
      ensures store == Unexpired(limits, old(store), now) && bytes == Total(store)
    {
      var expired := CollectExpired(now);
      RemovingExpired(limits, store, now);
      ghost var live := Unexpired(limits, store, now);
      var j := 0;
      while j < |expired|
        invariant 0 <= j <= |expired|
        invariant Unique(store) && bytes == Total(store)
        invariant RemoveAll(store, expired[j..]) == live
      {
        RemoveKeepsUnique(store, expired[j]);
        RemoveLocked(expired[j]);
        assert expired[j..][1..] == expired[j + 1..];
        j := j + 1;
      }
    }

    method CollectExpired(now: real) returns (expired: seq<ViewKey>)
      ensures expired == ExpiredKeys(limits, store, now)
    {
      hide Spec.Expired;
      expired := [];
      var i := 0;
      while i < |store|
        invariant 0 <= i <= |store|
        invariant expired + ExpiredKeys(limits, store[i..], now) == ExpiredKeys(limits, store, now)
      {
        assert store[i..][1..] == store[i + 1..];
        if Expired(limits, store[i].entry, now) {
          expired := expired + [store[i].key];
        }
        i := i + 1;
      }
    }

    /** An entry is looked up at most once a second without the expired ones going first. */
    method PruneIfDue(now: real)
      requires Valid()
      modifies `store, `bytes, `prunedAt
      ensures Valid() && State() == Spec.PruneIfDue(limits, old(State()), now)
    {
      if prunedAt.None? || now - prunedAt.value >= PRUNE_INTERVAL {
        PruneLocked(now);
      }
    }

    /** A usable entry becomes the one used last. */
    method Use(key: ViewKey, version: Option<Version>, now: real) returns (r: Option<Entry>)
      requires Valid()
      modifies `store
      ensures Valid()
      ensures r.Some? <==>
        Find(old(store), key).Some? && IsValid(limits, Find(old(store), key).value, gen, version, now)
      ensures r.Some? ==> r == Find(old(store), key) && store == Remove(old(store), key) + [Slot(key, r.value)]
      ensures r.None? ==> store == old(store)
    {
      r := Find(store, key);
      if r.Some? && IsValid(limits, r.value, gen, version, now) {
        ReplacedAtEnd(store, key, r.value);
        store := Remove(store, key) + [Slot(key, r.value)];
      } else {
        r := None;
      }
    }

    /** The first locked section of `get_or_compute`. */
    method Enter(key: ViewKey, version: Option<Version>, now: real, wait: bool) returns (r: EnterResult)
      requires Valid()
      modifies this
      ensures Valid() && old(created) <= created && fresh(created - old(created))
      ensures var (after, entered) := Spec.Enter(limits, old(State()), key, version, now, wait);
        && State() == after
        && match r {
             case EHit(value) => entered.Hit? && value == entered.entry.value
             case EJoin(f) => entered == Join(f.Id()) && f in old(created)
             case EWouldWait(f) => entered == WouldWait(f.Id()) && f in old(created)
             case ELead(f) => entered == Lead(f.Id()) && fresh(f) && f in created && !f.done
           }
    {
      hide Spec.PruneIfDue, Remove, Find, Unique, Total, IsValid;
      PruneIfDue(now);
      var entry := Use(key, version, now);
      if entry.Some? {
        return EHit(entry.value.value);
      }
      r := JoinOrLead(key, Token(gen, version), wait);
    }

    /** Share the registered computation if it has the caller's token, or start one. */
    method JoinOrLead(key: ViewKey, token: Token, wait: bool) returns (r: EnterResult)
      requires Valid()
      modifies `flights, `issued, `created
      ensures Valid() && old(created) <= created && fresh(created - old(created))
      ensures !r.EHit?
      ensures key in old(FlightIds()) && old(FlightIds())[key].token == token ==>
        State() == old(State()) && !r.ELead? && r.EJoin? == wait
        && r.flight in old(created) && r.flight.Id() == old(FlightIds())[key]
      ensures !(key in old(FlightIds()) && old(FlightIds())[key].token == token) ==>
        && r.ELead? && fresh(r.flight) && r.flight in created && !r.flight.done
        && r.flight.Id() == Flight(token, old(issued) + 1)
        && State() == old(State()).(flights := old(FlightIds())[key := r.flight.Id()], issued := old(issued) + 1)
    {
      if key in flights && flights[key].token == token {
        if !wait {
          return EWouldWait(flights[key]);
        }
        return EJoin(flights[key]);
      }
      var flight := Register(key, token);
      return ELead(flight);
    }

    /** A new flight becomes the one later calls for `key` find. */
    method Register(key: ViewKey, token: Token) returns (flight: FlightRecord)
      requires Valid()
      modifies `flights, `issued, `created
      ensures Valid() && fresh(flight) && !flight.done
      ensures created == old(created) + {flight}
      ensures flight.Id() == Flight(token, old(issued) + 1)
      ensures State() == old(State()).(flights := old(State()).flights[key := flight.Id()], issued := old(issued) + 1)
    {
      ghost var before := State();
      issued := issued + 1;
      flight := new FlightRecord(token, issued);
      flights := flights[key := flight];
      created := created + {flight};
      assert FlightIds() == before.flights[key := flight.Id()];
    }

    /** `_store_locked`. */
    method StoreLocked(key: ViewKey, flight: FlightRecord, value: Value, timeRelative: bool, now: real)
      requires Valid()
      modifies `store, `bytes, `prunedAt
      ensures Valid()
      ensures State() == Spec.Store(limits, old(State()), key, flight.Id(), value, timeRelative, now)
    {
      if flight.token.gen != gen {
        return;
      }
      var current := Find(store, key);
      if current.Some? && current.value.seqNo > flight.seqNo {
        return;
      }
      if limits.maxBytes.Some? && EntrySize(value) > limits.maxBytes.value {
        Discard(key);
        return;
      }
      Put(key, Entry(value, flight.token, now, timeRelative, flight.seqNo, EntrySize(value)), now);
    }

    /** Replace the entry of `key` and prune. */
    method Put(key: ViewKey, entry: Entry, now: real)
      requires Valid()
      modifies `store, `bytes, `prunedAt
      ensures Valid()
      ensures State() == Prune(limits, old(State()).(store := Remove(old(store), key) + [Slot(key, entry)]), now)
    {
      hide Unique, Remove, Evicted, Unexpired, Total;
      ReplacedAtEnd(store, key, entry);
      AppendLocked(key, entry);
      PruneLocked(now);
    }

    method AppendLocked(key: ViewKey, entry: Entry)
      requires Unique(store) && bytes == Total(store)
      modifies `store, `bytes
      ensures store == Remove(old(store), key) + [Slot(key, entry)] && bytes == Total(store)
    {
      RemoveLocked(key);
      TotalAppend(store, [Slot(key, entry)]);
      store := store + [Slot(key, entry)];
      bytes := bytes + entry.size;
    }

    /** The last section of `_lead`: leave the table of flights and wake the followers. */
    method Finish(key: ViewKey, flight: FlightRecord, outcome: Outcome)
      requires Valid() && flight in created
      modifies `flights, flight
      ensures Valid() && State() == Spec.Finish(old(State()), key, flight.Id())
      ensures flight.done && flight.outcome == Some(outcome)
    {
      ghost var before := State();
      if key in flights && flights[key] == flight {
        flights := flights - {key};
        assert FlightIds() == before.flights - {key};
      }
      flight.outcome := Some(outcome);
      flight.done := true;
    }

    /** The section a follower runs when its wait has timed out. */
    method FollowTimeout(key: ViewKey, flight: FlightRecord) returns (r: TimeoutResult)
      requires Valid() && flight in created
      modifies `flights, `issued, `created
      ensures Valid() && old(created) <= created
      ensures var (after, found) := Spec.FollowTimeout(old(State()), key, flight.Id(), flight.done);
        && State() == after
        && match r {
             case TDone => found == AlreadyDone
             case TNewer(value) => found.Newer? && value == found.entry.value
             case TSwitch(f) => found == Switch(f.Id()) && f in old(created)
             case TTakeOver(f) => found == TakeOver(f.Id()) && fresh(f) && f in created && !f.done
           }
    {
      if flight.done {
        return TDone;
      }
      var newer := Find(store, key);
      if newer.Some? && newer.value.seqNo > flight.seqNo {
        return TNewer(newer.value.value);
      }
      if key in flights && flights[key] != flight {
        return TSwitch(flights[key]);
      }
      var own := Register(key, flight.token);
      return TTakeOver(own);
    }

    method Discard(key: ViewKey)
      requires Valid()
      modifies `store, `bytes
      ensures Valid() && State() == Spec.Discard(old(State()), key)
    {
      DiscardKeepsBounded(limits, State(), key);
      RemoveLocked(key);
    }

    method Clear()
      requires Valid()
      modifies `store, `bytes, `gen
      ensures Valid() && State() == Spec.Clear(old(State()))
      ensures gen == old(gen) + 1 && store == [] && bytes == 0
    {
      gen := gen + 1;
      store := [];
      bytes := 0;
    }
  }

  // ------------------------------------------------- removing the expired keys one by one

  function ExpiredKeys(l: Limits, store: seq<Slot>, now: real): seq<ViewKey> {
    if store == [] then []
    else (if Expired(l, store[0].entry, now) then [store[0].key] else []) + ExpiredKeys(l, store[1..], now)
  }

  function RemoveAll(store: seq<Slot>, keys: seq<ViewKey>): seq<Slot>
    decreases |keys|
  {
    if keys == [] then store else RemoveAll(Remove(store, keys[0]), keys[1..])
  }

  lemma {:induction false} RemoveAllOthers(head: Slot, store: seq<Slot>, keys: seq<ViewKey>)
    requires head.key !in keys
    ensures RemoveAll([head] + store, keys) == [head] + RemoveAll(store, keys)
    decreases |keys|
  {
    if keys != [] {
      assert ([head] + store)[1..] == store;
      RemoveAllOthers(head, Remove(store, keys[0]), keys[1..]);
    }
  }

  /** With unique keys, removing the keys of the expired slots removes just those slots. */
  lemma {:induction false} RemovingExpired(l: Limits, store: seq<Slot>, now: real)
    requires Unique(store)
    ensures RemoveAll(store, ExpiredKeys(l, store, now)) == Unexpired(l, store, now)
  {
    if store != [] {
      var rest := store[1..];
      var keys := ExpiredKeys(l, rest, now);
      RemovingExpired(l, rest, now);
      assert store == [store[0]] + rest;
      ExpiredKeysComeFrom(l, rest, now);
      if Expired(l, store[0].entry, now) {
        RemoveAbsent(rest, store[0].key);
        assert ([store[0].key] + keys)[1..] == keys;
      } else {
        assert ExpiredKeys(l, store, now) == keys;
        RemoveAllOthers(store[0], rest, keys);
      }
    }
  }

  lemma {:induction false} ExpiredKeysComeFrom(l: Limits, store: seq<Slot>, now: real)
    ensures forall k :: k in ExpiredKeys(l, store, now) ==> exists s :: s in store && s.key == k
  {
    if store != [] {
      ExpiredKeysComeFrom(l, store[1..], now);
      forall k | k in ExpiredKeys(l, store, now) ensures exists s :: s in store && s.key == k {
        if k in ExpiredKeys(l, store[1..], now) {
          var s :| s in store[1..] && s.key == k;
          assert s in store;
        } else {
          assert store[0] in store;
        }
      }
    }
  }
}
