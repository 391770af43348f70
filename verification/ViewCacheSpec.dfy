/**
 The state of the shared view cache (monitor_app/services/view_cache.py) as a value, and
 one function for every section of code that runs under the cache's lock.

 `ViewCache` proves its methods equal to these functions, and `ViewCacheProtocol`
 interleaves them.  The store is the insertion-ordered dictionary of the source: the
 first slot is the one used longest ago.
 */
module ViewCacheSpec {
  import opened Options

  type ViewKey = string

  /** A value of the change token; only equality is ever used. */
  type Version = nat

  /** A version of `None` is a token that could not be read. */
  datatype Token = Token(gen: nat, version: Option<Version>)

  /**
   A computed value, reduced to what the cache and the proofs look at: how often the cache
   had been cleared when its `compute` started, the commit whose data it shows, and its
   `nbytes`.
   */
  datatype Value = Value(begun: nat, readAt: nat, nbytes: Option<int>)

  /** What a finished computation leaves for its followers. */
  datatype Outcome = Produced(value: Value) | Failed | Interrupted

  datatype Entry = Entry(value: Value, token: Token, storedAt: real, timeRelative: bool, seqNo: nat, size: nat)

  datatype Slot = Slot(key: ViewKey, entry: Entry)

  /** A computation in progress; `seqNo` is unique, so it stands for object identity. */
  datatype Flight = Flight(token: Token, seqNo: nat)

  datatype State = State(gen: nat, store: seq<Slot>, prunedAt: Option<real>, flights: map<ViewKey, Flight>, issued: nat)

  datatype Limits = Limits(ttl: real, maxAge: real, maxEntries: nat, maxBytes: Option<nat>)
  {
    predicate Valid() {
      0.0 <= ttl <= maxAge && 1 <= maxEntries && (maxBytes.Some? ==> 0 < maxBytes.value)
    }

    predicate Enabled() {
      Valid() && 0.0 < ttl
    }
  }

  const PRUNE_INTERVAL := 1.0

  const EMPTY := State(0, [], None, map[], 0)

  function EntrySize(value: Value): nat {
    if value.nbytes.Some? && value.nbytes.value > 0 then value.nbytes.value else 0
  }

  // ---------------------------------------------------------------- the store

  function Find(store: seq<Slot>, key: ViewKey): (r: Option<Entry>)
    ensures r.Some? ==> Slot(key, r.value) in store
    ensures r.None? ==> forall s :: s in store ==> s.key != key
  {
    if store == [] then None
    else if store[0].key == key then Some(store[0].entry)
    else Find(store[1..], key)
  }

  function Remove(store: seq<Slot>, key: ViewKey): (r: seq<Slot>)
    ensures forall s :: s in r <==> s in store && s.key != key
    ensures |r| <= |store|
    ensures (exists s :: s in store && s.key == key) ==> |r| < |store|
  {
    if store == [] then []
    else if store[0].key == key then Remove(store[1..], key)
    else [store[0]] + Remove(store[1..], key)
  }

  function Total(store: seq<Slot>): nat {
    if store == [] then 0 else store[0].entry.size + Total(store[1..])
  }

  ghost predicate Unique(store: seq<Slot>) {
    forall i, j :: 0 <= i < j < |store| ==> store[i].key != store[j].key
  }

  // ------------------------------------------------------------ when an entry may be used

  function Limit(l: Limits, e: Entry, version: Option<Version>): real {
    if version.Some? && e.token.version.Some? then
      if e.token.version != version then 0.0
      else if !e.timeRelative then l.maxAge
      else l.ttl
    else l.ttl
  }

  predicate IsValid(l: Limits, e: Entry, gen: nat, version: Option<Version>, now: real) {
    e.token.gen == gen && now - e.storedAt < Limit(l, e, version)
  }

  predicate Expired(l: Limits, e: Entry, now: real) {
    now - e.storedAt >= if e.timeRelative || e.token.version.None? then l.ttl else l.maxAge
  }

  // ------------------------------------------------------------------------ pruning

  function Unexpired(l: Limits, store: seq<Slot>, now: real): (r: seq<Slot>)
    ensures forall s :: s in r <==> s in store && !Expired(l, s.entry, now)
    ensures |r| <= |store|
  {
    if store == [] then []
    else if Expired(l, store[0].entry, now) then Unexpired(l, store[1..], now)
    else [store[0]] + Unexpired(l, store[1..], now)
  }

  function LastEntries(store: seq<Slot>, n: nat): seq<Slot> {
    if |store| <= n then store else store[|store| - n..]
  }

  function FitBytes(store: seq<Slot>, maxBytes: nat): seq<Slot> {
    if store == [] || Total(store) <= maxBytes then store else FitBytes(store[1..], maxBytes)
  }

  function Evicted(l: Limits, store: seq<Slot>): seq<Slot> {
    var kept := LastEntries(store, l.maxEntries);
    if l.maxBytes.Some? then FitBytes(kept, l.maxBytes.value) else kept
  }

  function Prune(l: Limits, s: State, now: real): State {
    s.(store := Evicted(l, Unexpired(l, s.store, now)), prunedAt := Some(now))
  }

  // --------------------------------------------------------- sections under the lock

  /** What a call learns when it holds the lock for the first time. */
  datatype Entered = Hit(entry: Entry) | Join(flight: Flight) | WouldWait(flight: Flight) | Lead(flight: Flight)

  function PruneIfDue(l: Limits, s: State, now: real): State {
    if s.prunedAt.None? || now - s.prunedAt.value >= PRUNE_INTERVAL then Prune(l, s, now) else s
  }

  function Enter(l: Limits, s: State, key: ViewKey, version: Option<Version>, now: real, wait: bool): (State, Entered) {
    EnterPruned(l, PruneIfDue(l, s, now), key, version, now, wait)
  }

  function EnterPruned(l: Limits, p: State, key: ViewKey, version: Option<Version>, now: real,
                       wait: bool): (State, Entered) {
    var found := Find(p.store, key);
    if found.Some? && IsValid(l, found.value, p.gen, version, now) then
      (p.(store := Remove(p.store, key) + [Slot(key, found.value)]), Hit(found.value))
    else
      var token := Token(p.gen, version);
      if key in p.flights && p.flights[key].token == token then
        (p, if wait then Join(p.flights[key]) else WouldWait(p.flights[key]))
      else
        var flight := Flight(token, p.issued + 1);
        (p.(flights := p.flights[key := flight], issued := p.issued + 1), Lead(flight))
  }

  function Store(l: Limits, s: State, key: ViewKey, flight: Flight, value: Value, timeRelative: bool,
                 now: real): State {
    var current := Find(s.store, key);
    if flight.token.gen != s.gen then s
    else if current.Some? && current.value.seqNo > flight.seqNo then s
    else if l.maxBytes.Some? && EntrySize(value) > l.maxBytes.value then s.(store := Remove(s.store, key))
    else
      var entry := Entry(value, flight.token, now, timeRelative, flight.seqNo, EntrySize(value));
      Prune(l, s.(store := Remove(s.store, key) + [Slot(key, entry)]), now)
  }

  function Finish(s: State, key: ViewKey, flight: Flight): State {
    if key in s.flights && s.flights[key] == flight then s.(flights := s.flights - {key}) else s
  }

  /** What a follower learns when its wait times out. */
  datatype TimedOut = AlreadyDone | Newer(entry: Entry) | Switch(flight: Flight) | TakeOver(flight: Flight)

  function FollowTimeout(s: State, key: ViewKey, flight: Flight, done: bool): (State, TimedOut) {
    var newer := Find(s.store, key);
    if done then (s, AlreadyDone)
    else if newer.Some? && newer.value.seqNo > flight.seqNo then (s, Newer(newer.value))
    else if key in s.flights && s.flights[key] != flight then (s, Switch(s.flights[key]))
    else
      var own := Flight(flight.token, s.issued + 1);
      (s.(flights := s.flights[key := own], issued := s.issued + 1), TakeOver(own))
  }

  function Discard(s: State, key: ViewKey): State {
    s.(store := Remove(s.store, key))
  }

  function Clear(s: State): State {
    s.(gen := s.gen + 1, store := [])
  }

  // ------------------------------------------------------------------- accounting

  ghost predicate Fits(l: Limits, store: seq<Slot>) {
    Unique(store) && |store| <= l.maxEntries && (l.maxBytes.Some? ==> Total(store) <= l.maxBytes.value)
  }

  ghost predicate Bounded(l: Limits, s: State) {
    Fits(l, s.store)
  }

  lemma {:induction false} RemoveKeepsUnique(store: seq<Slot>, key: ViewKey)
    requires Unique(store)
    ensures Unique(Remove(store, key))
  {
    if store != [] {
      RemoveKeepsUnique(store[1..], key);
      var rest := Remove(store[1..], key);
      forall i | 0 <= i < |rest| ensures rest[i].key != store[0].key {
        assert rest[i] in store[1..];
      }
    }
  }

  lemma {:induction false} TotalAppend(a: seq<Slot>, b: seq<Slot>)
    ensures Total(a + b) == Total(a) + Total(b)
  {
    if a == [] {
      assert a + b == b;
    } else {
      assert (a + b)[1..] == a[1..] + b;
      TotalAppend(a[1..], b);
    }
  }

  /** Taking one key out takes exactly its size out of the total. */
  lemma {:induction false} RemoveTotal(store: seq<Slot>, key: ViewKey)
    requires Unique(store)
    ensures Total(Remove(store, key))
      == Total(store) - (if Find(store, key).Some? then Find(store, key).value.size else 0)
    ensures |Remove(store, key)| == |store| - (if Find(store, key).Some? then 1 else 0)
  {
    if store != [] {
      RemoveTotal(store[1..], key);
      if store[0].key == key {
        RemoveAbsent(store[1..], key);
      }
    }
  }

  lemma {:induction false} RemoveAbsent(store: seq<Slot>, key: ViewKey)
    requires forall s :: s in store ==> s.key != key
    ensures Remove(store, key) == store && Find(store, key).None?
  {
    if store != [] {
      assert store[0] in store;
      RemoveAbsent(store[1..], key);
    }
  }

  lemma {:induction false} UnexpiredKeepsUnique(l: Limits, store: seq<Slot>, now: real)
    requires Unique(store)
    ensures Unique(Unexpired(l, store, now)) && Total(Unexpired(l, store, now)) <= Total(store)
  {
    if store != [] {
      UnexpiredKeepsUnique(l, store[1..], now);
      var rest := Unexpired(l, store[1..], now);
      forall i | 0 <= i < |rest| ensures rest[i].key != store[0].key {
        assert rest[i] in store[1..];
      }
    }
  }

  lemma {:induction false} FitBytesIsSuffix(store: seq<Slot>, maxBytes: nat) returns (n: nat)
    ensures n <= |store| && FitBytes(store, maxBytes) == store[n..]
    ensures Total(store[n..]) <= maxBytes
    ensures forall m :: 0 <= m < n ==> Total(store[m..]) > maxBytes
  {
    if store == [] || Total(store) <= maxBytes {
      n := 0;
      assert store[0..] == store;
    } else {
      var k := FitBytesIsSuffix(store[1..], maxBytes);
      n := k + 1;
      assert store[1..][k..] == store[n..];
      forall m | 0 <= m < n ensures Total(store[m..]) > maxBytes {
        if m == 0 {
          assert store[0..] == store;
        } else {
          assert store[1..][m - 1..] == store[m..];
        }
      }
    }
  }

  /**
   Eviction keeps a suffix in order of last use, within both limits, and the longest one:
   keeping one more slot would exceed a limit.
   */
  lemma {:induction false} EvictedIsLongestSuffix(l: Limits, store: seq<Slot>) returns (n: nat)
    ensures n <= |store| && Evicted(l, store) == store[n..]
    ensures |store| - n <= l.maxEntries && (l.maxBytes.Some? ==> Total(store[n..]) <= l.maxBytes.value)
    ensures forall m :: 0 <= m < n ==>
      |store| - m > l.maxEntries || (l.maxBytes.Some? && Total(store[m..]) > l.maxBytes.value)
  {
    var base := if |store| <= l.maxEntries then 0 else |store| - l.maxEntries;
    assert LastEntries(store, l.maxEntries) == store[base..];
    n := base;
    if l.maxBytes.Some? {
      var k := FitBytesIsSuffix(store[base..], l.maxBytes.value);
      n := base + k;
      assert store[base..][k..] == store[n..];
      forall m | base <= m < n ensures Total(store[m..]) > l.maxBytes.value {
        assert store[base..][m - base..] == store[m..];
      }
    }
  }

  lemma {:induction false} PruneIsBounded(l: Limits, s: State, now: real)
    requires Unique(s.store)
    ensures Bounded(l, Prune(l, s, now))
    ensures forall slot :: slot in Prune(l, s, now).store ==> slot in s.store && !Expired(l, slot.entry, now)
  {
    UnexpiredKeepsUnique(l, s.store, now);
    var n := EvictedIsLongestSuffix(l, Unexpired(l, s.store, now));
  }

  /** Putting a slot for `key` at the end, in place of the old one. */
  lemma {:induction false} ReplacedAtEnd(store: seq<Slot>, key: ViewKey, entry: Entry)
    requires Unique(store)
    ensures Unique(Remove(store, key) + [Slot(key, entry)])
    ensures Find(store, key) == Some(entry) ==>
      Total(Remove(store, key) + [Slot(key, entry)]) == Total(store) && |Remove(store, key)| + 1 == |store|
  {
    RemoveKeepsUnique(store, key);
    RemoveTotal(store, key);
    TotalAppend(Remove(store, key), [Slot(key, entry)]);
  }

  /** What the first locked section can find, and what it changes besides the store. */
  lemma {:induction false} EnterFinds(l: Limits, s: State, key: ViewKey, version: Option<Version>, now: real,
                                      wait: bool)
    requires Unique(s.store)
    ensures var (after, found) := Enter(l, s, key, version, now, wait);
      && after.gen == s.gen
      && (found.Hit? ==> Slot(key, found.entry) in s.store && IsValid(l, found.entry, s.gen, version, now))
      && (found.Join? || found.WouldWait? ==>
            key in s.flights && found.flight == s.flights[key] && found.flight.token == Token(s.gen, version))
      && (found.Lead? ==>
            found.flight == Flight(Token(s.gen, version), s.issued + 1)
            && !(key in s.flights && s.flights[key].token == found.flight.token)
            && after.flights == s.flights[key := found.flight] && after.issued == s.issued + 1)
      && (!found.Lead? ==> after.flights == s.flights && after.issued == s.issued)
  {
    PruneIsBounded(l, s, now);
  }

  lemma {:induction false} EnterKeepsBounded(l: Limits, s: State, key: ViewKey, version: Option<Version>, now: real,
                                             wait: bool)
    requires Bounded(l, s)
    ensures Bounded(l, Enter(l, s, key, version, now, wait).0)
  {
    var p := PruneIfDue(l, s, now);
    assert Bounded(l, p) by { PruneIsBounded(l, s, now); }
    var found := Find(p.store, key);
    if found.Some? {
      ReplacedAtEnd(p.store, key, found.value);
    }
  }

  lemma {:induction false} StoreKeepsBounded(l: Limits, s: State, key: ViewKey, flight: Flight, value: Value,
                                             timeRelative: bool, now: real)
    requires Bounded(l, s)
    ensures Bounded(l, Store(l, s, key, flight, value, timeRelative, now))
  {
    RemoveKeepsUnique(s.store, key);
    RemoveTotal(s.store, key);
    var entry := Entry(value, flight.token, now, timeRelative, flight.seqNo, EntrySize(value));
    ReplacedAtEnd(s.store, key, entry);
    PruneIsBounded(l, s.(store := Remove(s.store, key) + [Slot(key, entry)]), now);
  }

  /** What is in the store after a result came in: old slots, or the slot of the result. */
  lemma {:induction false} StoreContents(l: Limits, s: State, key: ViewKey, flight: Flight, value: Value,
                                         timeRelative: bool, now: real)
    requires Unique(s.store)
    ensures var after := Store(l, s, key, flight, value, timeRelative, now);
      && after == s.(store := after.store, prunedAt := after.prunedAt)
      && (forall slot :: slot in after.store && slot !in s.store ==>
            flight.token.gen == s.gen
            && slot == Slot(key, Entry(value, flight.token, now, timeRelative, flight.seqNo, EntrySize(value))))
  {
    var entry := Entry(value, flight.token, now, timeRelative, flight.seqNo, EntrySize(value));
    ReplacedAtEnd(s.store, key, entry);
    PruneIsBounded(l, s.(store := Remove(s.store, key) + [Slot(key, entry)]), now);
  }

  lemma {:induction false} DiscardKeepsBounded(l: Limits, s: State, key: ViewKey)
    requires Bounded(l, s)
    ensures Bounded(l, Discard(s, key)) && Bounded(l, Clear(s))
  {
    RemoveKeepsUnique(s.store, key);
    RemoveTotal(s.store, key);
  }

  lemma {:induction false} UnexpiredLast(l: Limits, store: seq<Slot>, slot: Slot, now: real)
    requires !Expired(l, slot.entry, now)
    ensures Unexpired(l, store + [slot], now) == Unexpired(l, store, now) + [slot]
  {
    if store == [] {
      assert store + [slot] == [slot];
    } else {
      assert (store + [slot])[1..] == store[1..] + [slot];
      UnexpiredLast(l, store[1..], slot, now);
    }
  }

  /** Pruning keeps the newest slot if it has not expired and fits on its own. */
  lemma {:induction false} PruneKeepsLast(l: Limits, s: State, others: seq<Slot>, slot: Slot, now: real)
    returns (front: seq<Slot>)
    requires l.Valid() && s.store == others + [slot] && !Expired(l, slot.entry, now)
    requires l.maxBytes.Some? ==> slot.entry.size <= l.maxBytes.value
    ensures Prune(l, s, now).store == front + [slot]
    ensures forall x :: x in front ==> x in others
  {
    hide Unexpired, Evicted, Expired;
    UnexpiredLast(l, others, slot, now);
    var before := Unexpired(l, others, now);
    var live := before + [slot];
    var n := EvictedIsLongestSuffix(l, live);
    assert live[|before|..] == [slot] && Total([slot]) == slot.entry.size;
    front := before[n..];
    assert live[n..] == front + [slot];
  }

  /** A result that was accepted is still there after the pruning its own storing does. */
  lemma {:induction false} StoredSurvivesPruning(l: Limits, s: State, key: ViewKey, flight: Flight, value: Value,
                                                 timeRelative: bool, now: real)
    requires l.Enabled() && flight.token.gen == s.gen
    requires Find(s.store, key).Some? ==> Find(s.store, key).value.seqNo <= flight.seqNo
    requires l.maxBytes.Some? ==> EntrySize(value) <= l.maxBytes.value
    ensures Find(Store(l, s, key, flight, value, timeRelative, now).store, key)
         == Some(Entry(value, flight.token, now, timeRelative, flight.seqNo, EntrySize(value)))
  {
    var entry := Entry(value, flight.token, now, timeRelative, flight.seqNo, EntrySize(value));
    var others := Remove(s.store, key);
    var full := s.(store := others + [Slot(key, entry)]);
    var front := PruneKeepsLast(l, full, others, Slot(key, entry), now);
  }

  /** Within a second of the last pruning nothing is pruned; later, nothing that has expired is left. */
  lemma {:induction false} PrunedOnceASecond(l: Limits, s: State, now: real)
    requires Unique(s.store)
    ensures var p := PruneIfDue(l, s, now);
      if s.prunedAt.Some? && now - s.prunedAt.value < 1.0 then p == s
      else
        && p.prunedAt == Some(now) && Bounded(l, p)
        && forall slot :: slot in p.store ==> slot in s.store && !Expired(l, slot.entry, now)
  {
    PruneIsBounded(l, s, now);
  }

  /** A result that is too large is not stored, and what was stored before it is dropped. */
  lemma {:induction false} TooLargeIsNotKept(l: Limits, s: State, key: ViewKey, flight: Flight, value: Value,
                                             timeRelative: bool, now: real)
    requires Unique(s.store) && flight.token.gen == s.gen
    requires Find(s.store, key).Some? ==> Find(s.store, key).value.seqNo <= flight.seqNo
    requires l.maxBytes.Some? && value.nbytes.Some? && value.nbytes.value > l.maxBytes.value
    ensures forall slot :: slot in Store(l, s, key, flight, value, timeRelative, now).store <==>
      slot in s.store && slot.key != key
  {
  }

  /** A result never replaces one whose computation was registered later. */
  lemma {:induction false} StoreNeverGoesBack(l: Limits, s: State, key: ViewKey, flight: Flight, value: Value,
                                              timeRelative: bool, now: real)
    requires Unique(s.store)
    ensures var before := Find(s.store, key);
      var after := Find(Store(l, s, key, flight, value, timeRelative, now).store, key);
      before.Some? && after.Some? ==> before.value.seqNo <= after.value.seqNo
  {
    var entry := Entry(value, flight.token, now, timeRelative, flight.seqNo, EntrySize(value));
    RemoveKeepsUnique(s.store, key);
    PruneIsBounded(l, s.(store := Remove(s.store, key) + [Slot(key, entry)]), now);
  }

  /**
   Pruning by age drops an entry exactly when no caller could hit it from then on: neither
   now nor at any later clock reading, under any version of the data.
   */
  lemma {:induction false} ExpiredIffUnusable(l: Limits, e: Entry, now: real)
    requires l.Enabled()
    ensures Expired(l, e, now) <==>
      forall version, later :: now <= later ==> !IsValid(l, e, e.token.gen, version, later)
  {
    if !Expired(l, e, now) {
      var version := if e.timeRelative then None else e.token.version;
      assert IsValid(l, e, e.token.gen, version, now);
    }
  }

  /**
   An entry made for other data than the caller's is served exactly when the caller read
   the clock before the entry was stored (a difference below zero is under the limit 0).
   */
  lemma {:induction false} OtherVersionServedIffStoredLater(l: Limits, e: Entry, version: Version, now: real)
    requires e.token.version.Some? && e.token.version.value != version
    ensures IsValid(l, e, e.token.gen, Some(version), now) <==> now < e.storedAt
  {
    assert Limit(l, e, Some(version)) == 0.0;
  }

  // ------------------------------------------------------------- what a caller gets to see

  /** An entry that may be served, told by its age: its clear, its version and its kind decide. */
  predicate Young(l: Limits, e: Entry, gen: nat, version: Option<Version>, now: real) {
    && e.token.gen == gen
    && (version.None? || e.token.version.None? ==> now - e.storedAt < l.ttl)
    && (version.Some? && version == e.token.version ==>
          now - e.storedAt < if e.timeRelative then l.ttl else l.maxAge)
    && (version.Some? && e.token.version.Some? && version != e.token.version ==> now < e.storedAt)
  }

  /**
   A caller is served what is stored for its key if and only if that is young enough.  In
   particular, one that could not read the token gets nothing of age `ttl` or more.
   */
  lemma {:induction false} ServedIffYoung(l: Limits, s: State, key: ViewKey, version: Option<Version>, now: real,
                                          wait: bool)
    requires l.Enabled() && Bounded(l, s)
    ensures var found := Enter(l, s, key, version, now, wait).1;
      && (found.Hit? <==> exists e :: Slot(key, e) in s.store && Young(l, e, s.gen, version, now))
      && (found.Hit? ==> Slot(key, found.entry) in s.store && Young(l, found.entry, s.gen, version, now))
  {
    hide Fits, Evicted, Unexpired, Remove;
    var p := PruneIfDue(l, s, now);
    forall e | Slot(key, e) in s.store && Young(l, e, s.gen, version, now)
      ensures Find(p.store, key) == Some(e)
    {
      assert !Expired(l, e, now);
      FindOnly(l, s, p, key, e, now);
    }
    if Find(p.store, key).Some? {
      assert Slot(key, Find(p.store, key).value) in s.store by {
        PruneKeepsLive(l, s, now);
      }
    }
  }

  /** Within the limits, pruning drops the expired entries and no others. */
  lemma {:induction false} PruneKeepsLive(l: Limits, s: State, now: real)
    requires Bounded(l, s)
    ensures Prune(l, s, now).store == Unexpired(l, s.store, now)
  {
    var live := Unexpired(l, s.store, now);
    UnexpiredKeepsUnique(l, s.store, now);
    var n := EvictedIsLongestSuffix(l, live);
    assert live[0..] == live;
  }

  lemma {:induction false} FindOnly(l: Limits, s: State, p: State, key: ViewKey, e: Entry, now: real)
    requires Bounded(l, s) && p == PruneIfDue(l, s, now) && Slot(key, e) in s.store && !Expired(l, e, now)
    ensures Find(p.store, key) == Some(e)
  {
    PruneKeepsLive(l, s, now);
    PruneIsBounded(l, s, now);
    assert Slot(key, e) in p.store && Unique(p.store);
    var i :| 0 <= i < |p.store| && p.store[i] == Slot(key, e);
    var j :| 0 <= j < |p.store| && p.store[j] == Slot(key, Find(p.store, key).value);
  }

  /**
   What is served becomes the entry used last, and the others keep their order: the store is
   sorted by last use.
   */
  lemma {:induction false} ServedIsUsedLast(l: Limits, s: State, key: ViewKey, version: Option<Version>, now: real,
                                            wait: bool)
    requires Bounded(l, s) && Enter(l, s, key, version, now, wait).1.Hit?
    ensures var (after, found) := Enter(l, s, key, version, now, wait);
      var last := |after.store| - 1;
      && last >= 0 && after.store[last] == Slot(key, found.entry)
      && (exists at :: PartAt(after.store[..last], s.store, at))
      && forall slot :: slot in s.store && slot.key != key && !Expired(l, slot.entry, now) ==> slot in after.store
  {
    hide Unexpired, Remove, Evicted, PartAt;
    var p := PruneIfDue(l, s, now);
    PruneKeepsLive(l, s, now);
    var at := PrunedInOrder(l, s, now);
    var rest := RemoveInOrder(p.store, key);
    var places := PartOfPart(Remove(p.store, key), p.store, s.store, rest, at);
    var after := Enter(l, s, key, version, now, wait).0;
    assert after.store[..|after.store| - 1] == Remove(p.store, key);
  }

  lemma {:induction false} PrunedInOrder(l: Limits, s: State, now: real) returns (at: seq<nat>)
    requires Bounded(l, s)
    ensures PartAt(PruneIfDue(l, s, now).store, s.store, at)
  {
    hide Unexpired;
    if PruneIfDue(l, s, now) == s {
      at := seq(|s.store|, i => i);
    } else {
      PruneKeepsLive(l, s, now);
      at := UnexpiredInOrder(l, s.store, now);
    }
  }

  lemma {:induction false} UnexpiredInOrder(l: Limits, store: seq<Slot>, now: real) returns (at: seq<nat>)
    ensures PartAt(Unexpired(l, store, now), store, at)
  {
    at := [];
    if store != [] {
      at := UnexpiredInOrder(l, store[1..], now);
      PartBehind(Unexpired(l, store[1..], now), store[1..], at, store[0]);
      assert store == [store[0]] + store[1..];
      at := (if Expired(l, store[0].entry, now) then [] else [0]) + Shifted(at, 1);
    }
  }

  lemma {:induction false} RemoveInOrder(store: seq<Slot>, key: ViewKey) returns (at: seq<nat>)
    ensures PartAt(Remove(store, key), store, at)
  {
    at := [];
    if store != [] {
      at := RemoveInOrder(store[1..], key);
      PartBehind(Remove(store[1..], key), store[1..], at, store[0]);
      assert store == [store[0]] + store[1..];
      at := (if store[0].key == key then [] else [0]) + Shifted(at, 1);
    }
  }

  /** Discarding a key drops what is stored for it and nothing else; computations go on. */
  lemma {:induction false} DiscardDropsOne(s: State, key: ViewKey)
    ensures forall slot :: slot in Discard(s, key).store <==> slot in s.store && slot.key != key
    ensures Discard(s, key) == s.(store := Discard(s, key).store)
    ensures exists at :: PartAt(Discard(s, key).store, s.store, at)
  {
    var at := RemoveInOrder(s.store, key);
  }
}
