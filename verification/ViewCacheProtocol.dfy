/**
 Every interleaving of callers of the shared view cache, commits to the database, clock
 ticks, `clear` and `discard`.

 One event is one section under the cache's lock, or one step outside it: reading the
 change token, reading the clock, starting `compute`, and reading the data.  The token
 takes a value it never had before at every commit; it may be unreadable at any time.
 */
module ViewCacheProtocol {
  import opened Options
  import opened Spec = ViewCacheSpec

  /** Where a returned value came from. */
  datatype Source = ByHit(entry: Entry) | ByFlight(flight: Flight) | ByNewer(entry: Entry)

  datatype Phase =
    | Start
    | HasToken
    | HasClock
    | Leading(flight: Flight)
    | Computing(flight: Flight, begun: nat)
    | Computed(flight: Flight, outcome: Outcome, keep: bool)
    | Stored(flight: Flight, outcome: Outcome)
    | Following(flight: Flight)
    | Pending(flight: Flight)
    | Returned(value: Value, source: Source)
    | Raised

  /**
   One call: the version it read and the commit at which it read it, its clock reading,
   and how often the cache had been cleared when it last took the lock.
   */
  datatype Call = Call(key: ViewKey, timeRelative: bool, wait: bool, version: Option<Version>, tokenAt: nat,
                       now: real, lockClears: nat, phase: Phase)

  /**
   What happened to flight number i + 1.  `tokenAt` is the commit at which its token was
   read, which for a takeover is that of the flight taken over.
   */
  datatype Registered = Registered(key: ViewKey, token: Token, tokenAt: nat, gen: nat, commits: nat, leader: nat,
                                   from: Option<nat>, outcome: Option<Outcome>)

  /**
   `tokens[c]` is the token's value after commit number c, and `clears` counts the calls of
   `clear`; neither is read from the cache.
   */
  datatype System = System(limits: Limits, cache: State, clock: real, tokens: seq<Version>,
                           calls: map<nat, Call>, log: seq<Registered>, clears: nat)
  {
    function Commits(): nat
      requires tokens != []
    {
      |tokens| - 1
    }
  }

  datatype Event =
    | Commits(token: Version)
    | TimePasses(dt: real)
    | Arrives(id: nat, key: ViewKey, timeRelative: bool, wait: bool)
    | ReadsToken(id: nat, readable: bool)
    | ReadsClock(id: nat)
    | TakesLock(id: nat)
    | StartsCompute(id: nat)
    | EndsCompute(id: nat, nbytes: Option<int>, raises: Option<Outcome>, keep: bool)
    | StoresResult(id: nat)
    | FinishesFlight(id: nat)
    | SeesDone(id: nat)
    | TimesOut(id: nat)
    | AsksResult(id: nat)
    | Clears
    | Discards(key: ViewKey)

  function Initial(limits: Limits, token: Version): System {
    System(limits, Spec.EMPTY, 0.0, [token], map[], [], 0)
  }

  predicate Exists(s: System, f: Flight) {
    1 <= f.seqNo <= |s.log|
  }

  function Log(s: System, f: Flight): Registered
    requires Exists(s, f)
  {
    s.log[f.seqNo - 1]
  }

  predicate Done(s: System, f: Flight) {
    Exists(s, f) && Log(s, f).outcome.Some?
  }

  predicate ReadyToFinish(p: Phase) {
    p.Stored? || (p.Computed? && !(p.keep && p.outcome.Produced?))
  }

  predicate Enabled(s: System, e: Event) {
    match e
    case Commits(token) => token !in s.tokens
    case TimePasses(dt) => dt >= 0.0
    case Arrives(id, _, _, _) => id !in s.calls
    case ReadsToken(id, _) => id in s.calls && s.calls[id].phase.Start? && s.tokens != []
    case ReadsClock(id) => id in s.calls && s.calls[id].phase.HasToken?
    case TakesLock(id) => id in s.calls && s.calls[id].phase.HasClock? && s.tokens != []
    case StartsCompute(id) => id in s.calls && s.calls[id].phase.Leading?
    case EndsCompute(id, _, raises, _) =>
      id in s.calls && s.calls[id].phase.Computing? && s.tokens != [] && !(raises.Some? && raises.value.Produced?)
    case StoresResult(id) =>
      id in s.calls && s.calls[id].phase.Computed? && s.calls[id].phase.keep && s.calls[id].phase.outcome.Produced?
    case FinishesFlight(id) => id in s.calls && ReadyToFinish(s.calls[id].phase) && Exists(s, s.calls[id].phase.flight)
    case SeesDone(id) => id in s.calls && s.calls[id].phase.Following? && Done(s, s.calls[id].phase.flight)
    case TimesOut(id) =>
      id in s.calls && s.calls[id].phase.Following? && Exists(s, s.calls[id].phase.flight) && s.tokens != []
    case AsksResult(id) => id in s.calls && s.calls[id].phase.Pending? && Exists(s, s.calls[id].phase.flight)
    case Clears => true
    case Discards(_) => true
  }

  function With(s: System, id: nat, c: Call): System {
    s.(calls := s.calls[id := c])
  }

  /** What a caller makes of a finished flight it leads or follows. */
  function Receives(c: Call, f: Flight, outcome: Outcome): Call {
    match outcome
    case Produced(value) => c.(phase := Returned(value, ByFlight(f)))
    case Failed => c.(phase := Raised)
    case Interrupted => c.(phase := Start, wait := true)
  }

  function LockStep(s: System, id: nat): System
    requires Enabled(s, TakesLock(id))
  {
    var c := s.calls[id];
    var (cache, entered) := Enter(s.limits, s.cache, c.key, c.version, c.now, c.wait);
    Enters(s.(cache := cache), id, c.(lockClears := s.clears), entered)
  }

  function Enters(t: System, id: nat, c: Call, entered: Entered): System
    requires t.tokens != []
  {
    match entered
    case Hit(entry) => With(t, id, c.(phase := Returned(entry.value, ByHit(entry))))
    case Join(f) => With(t, id, c.(phase := Following(f)))
    case WouldWait(f) => With(t, id, c.(phase := Pending(f)))
    case Lead(f) =>
      With(t.(log := t.log + [Registered(c.key, f.token, c.tokenAt, t.cache.gen, t.Commits(), id, None, None)]),
           id, c.(phase := Leading(f)))
  }

  function TimeoutStep(s: System, id: nat): System
    requires Enabled(s, TimesOut(id))
  {
    var c := s.calls[id];
    var f := c.phase.flight;
    var (cache, found) := FollowTimeout(s.cache, c.key, f, Done(s, f));
    var t := s.(cache := cache);
    match found
    case AlreadyDone => s
    case Newer(entry) => With(t, id, c.(phase := Returned(entry.value, ByNewer(entry))))
    case Switch(g) => With(t, id, c.(phase := Following(g)))
    case TakeOver(own) =>
      var r := Registered(c.key, own.token, Log(s, f).tokenAt, s.cache.gen, s.Commits(), id, Some(f.seqNo), None);
      With(t.(log := t.log + [r]),
           id, c.(phase := Leading(own)))
  }

  function FinishStep(s: System, id: nat): System
    requires Enabled(s, FinishesFlight(id))
  {
    var c := s.calls[id];
    var f := c.phase.flight;
    var outcome := c.phase.outcome;
    var t := s.(cache := Finish(s.cache, c.key, f), log := s.log[f.seqNo - 1 := Log(s, f).(outcome := Some(outcome))]);
    With(t, id, if outcome.Produced? then Receives(c, f, outcome) else c.(phase := Raised))
  }

  function Next(s: System, e: Event): System
    requires Enabled(s, e)
  {
    match e
    case Commits(token) => s.(tokens := s.tokens + [token])
    case TimePasses(dt) => s.(clock := s.clock + dt)
    case Arrives(id, key, timeRelative, wait) =>
      With(s, id, Call(key, timeRelative, wait, None, 0, s.clock, 0, Start))
    case ReadsToken(id, readable) =>
      With(s, id, s.calls[id].(version := if readable then Some(s.tokens[s.Commits()]) else None,
                               tokenAt := s.Commits(), phase := HasToken))
    case ReadsClock(id) => With(s, id, s.calls[id].(now := s.clock, phase := HasClock))
    case TakesLock(id) => LockStep(s, id)
    case StartsCompute(id) => With(s, id, s.calls[id].(phase := Computing(s.calls[id].phase.flight, s.clears)))
    case EndsCompute(id, nbytes, raises, keep) =>
      var p := s.calls[id].phase;
      var outcome := if raises.Some? then raises.value else Produced(Value(p.begun, s.Commits(), nbytes));
      With(s, id, s.calls[id].(phase := Computed(p.flight, outcome, keep)))
    case StoresResult(id) =>
      var c := s.calls[id];
      var cache := Store(s.limits, s.cache, c.key, c.phase.flight, c.phase.outcome.value, c.timeRelative, s.clock);
      With(s.(cache := cache), id, c.(phase := Stored(c.phase.flight, c.phase.outcome)))
    case FinishesFlight(id) => FinishStep(s, id)
    case SeesDone(id) =>
      var f := s.calls[id].phase.flight;
      With(s, id, Receives(s.calls[id], f, Log(s, f).outcome.value))
    case TimesOut(id) => TimeoutStep(s, id)
    case AsksResult(id) =>
      var f := s.calls[id].phase.flight;
      if Done(s, f) && !Log(s, f).outcome.value.Interrupted?
      then With(s, id, Receives(s.calls[id], f, Log(s, f).outcome.value))
      else s
    case Clears => s.(cache := Clear(s.cache), clears := s.clears + 1)
    case Discards(key) => s.(cache := Discard(s.cache, key))
  }

  predicate Possible(s: System, run: seq<Event>)
    decreases |run|
  {
    run == [] || (Enabled(s, run[0]) && Possible(Next(s, run[0]), run[1..]))
  }

  function After(s: System, run: seq<Event>): System
    requires Possible(s, run)
    decreases |run|
  {
    if run == [] then s else After(Next(s, run[0]), run[1..])
  }

  // --------------------------------------------------------------------- the invariant

  predicate Leads(p: Phase) {
    p.Leading? || p.Computing? || p.Computed? || p.Stored?
  }

  /** A value made by a computation that started after `r` was registered. */
  predicate MadeAfter(value: Value, r: Registered) {
    r.gen <= value.begun && r.commits <= value.readAt
  }

  ghost predicate LogOk(s: System) {
    && s.cache.issued == |s.log|
    && (forall i :: 0 <= i < |s.log| ==> RegisteredOk(s, i))
    && (forall i, j :: 0 <= i < j < |s.log| ==> s.log[i].gen <= s.log[j].gen && s.log[i].commits <= s.log[j].commits)
  }

  ghost predicate RegisteredOk(s: System, i: nat)
    requires i < |s.log|
  {
    var r := s.log[i];
    && r.commits < |s.tokens| && r.gen <= s.cache.gen && r.token.gen <= r.gen
    && (r.token.version.Some? ==> r.tokenAt <= r.commits && s.tokens[r.tokenAt] == r.token.version.value)
    && (r.from.Some? ==> 1 <= r.from.value <= i && s.log[r.from.value - 1].key == r.key)
    && (r.outcome.Some? && r.outcome.value.Produced? ==> MadeAfter(r.outcome.value.value, r))
    && (r.outcome.None? ==>
          r.leader in s.calls && Leads(s.calls[r.leader].phase)
            && s.calls[r.leader].phase.flight == Flight(r.token, i + 1))
  }

  /** A registered flight is the newest one of its key, and it is not done. */
  ghost predicate FlightOk(s: System, k: ViewKey)
    requires k in s.cache.flights
  {
    var f := s.cache.flights[k];
    && Exists(s, f) && Log(s, f).key == k && Log(s, f).token == f.token && !Done(s, f)
    && forall j :: f.seqNo <= j < |s.log| ==> s.log[j].key != k
  }

  ghost predicate SlotOk(s: System, slot: Slot) {
    var e := slot.entry;
    && 1 <= e.seqNo <= |s.log|
    && s.log[e.seqNo - 1].key == slot.key && s.log[e.seqNo - 1].token == e.token
    && MadeAfter(e.value, s.log[e.seqNo - 1])
    && e.token.gen == s.cache.gen && e.storedAt <= s.clock
  }

  /** The flight was registered no earlier than the call read its token and took the lock. */
  predicate Serves(s: System, c: Call, f: Flight) {
    && Exists(s, f) && Log(s, f).key == c.key && Log(s, f).token == f.token
    && c.lockClears <= Log(s, f).gen && (c.version.Some? ==> c.tokenAt <= Log(s, f).commits)
  }

  /** The entry was made for the version of the data that the caller read. */
  predicate MadeForCaller(c: Call, e: Entry) {
    e.token.version == c.version
  }

  /** What a caller may rely on when it gets a value. */
  predicate Fresh(c: Call, value: Value, source: Source) {
    && c.lockClears <= value.begun
    && (c.version.Some? && (source.ByHit? ==> MadeForCaller(c, source.entry)) ==> c.tokenAt <= value.readAt)
  }

  /** An entry that was hit although it was made for other data. */
  predicate ServedAcross(c: Call, e: Entry) {
    c.version.Some? ==> (MadeForCaller(c, e) || e.token.version.None? || c.now < e.storedAt)
  }

  ghost predicate CallOk(s: System, id: nat)
    requires id in s.calls
  {
    var c := s.calls[id];
    && c.now <= s.clock && c.lockClears <= s.cache.gen
    && c.tokenAt < |s.tokens| && (c.version.Some? ==> s.tokens[c.tokenAt] == c.version.value)
    && match c.phase
       case Leading(f) => Serves(s, c, f) && !Done(s, f) && Log(s, f).leader == id
       case Computing(f, begun) =>
         Serves(s, c, f) && !Done(s, f) && Log(s, f).leader == id && Log(s, f).gen <= begun <= s.cache.gen
       case Computed(f, outcome, _) =>
         Serves(s, c, f) && !Done(s, f) && Log(s, f).leader == id
         && (outcome.Produced? ==> MadeAfter(outcome.value, Log(s, f)))
       case Stored(f, outcome) =>
         Serves(s, c, f) && !Done(s, f) && Log(s, f).leader == id
         && (outcome.Produced? ==> MadeAfter(outcome.value, Log(s, f)))
       case Following(f) => Serves(s, c, f)
       case Pending(f) => Serves(s, c, f)
       case Returned(value, source) =>
         Fresh(c, value, source) && (source.ByHit? ==> ServedAcross(c, source.entry))
       case _ => true
  }

  ghost predicate TokensOk(s: System) {
    s.tokens != [] && forall i, j :: 0 <= i < j < |s.tokens| ==> s.tokens[i] != s.tokens[j]
  }

  ghost predicate StoreOk(s: System) {
    forall slot :: slot in s.cache.store ==> SlotOk(s, slot)
  }

  ghost predicate Inv(s: System) {
    && s.limits.Enabled() && Bounded(s.limits, s.cache) && s.cache.gen == s.clears
    && TokensOk(s) && LogOk(s) && StoreOk(s)
    && (forall k :: k in s.cache.flights ==> FlightOk(s, k))
    && (forall id :: id in s.calls ==> CallOk(s, id))
  }

  // ------------------------------------------------------------------- preservation

  lemma {:induction false} StartHolds(limits: Limits, token: Version)
    requires limits.Enabled()
    ensures Inv(Initial(limits, token))
  {
  }

  lemma {:induction false} CommitKeeps(s: System, token: Version)
    requires Inv(s) && Enabled(s, Commits(token))
    ensures Inv(Next(s, Commits(token)))
  {
    var t := Next(s, Commits(token));
    forall i | 0 <= i < |t.log| ensures RegisteredOk(t, i) {
      assert RegisteredOk(s, i);
    }
    forall slot | slot in t.cache.store ensures SlotOk(t, slot) {
      assert SlotOk(s, slot);
    }
    forall k | k in t.cache.flights ensures FlightOk(t, k) {
      assert FlightOk(s, k);
    }
    forall id | id in t.calls ensures CallOk(t, id) {
      assert CallOk(s, id);
    }
  }

  /** Steps that only move one call forward, without touching the log. */
  lemma {:induction false} MovingACall(s: System, t: System, id: nat)
    requires Inv(s) && id in t.calls && t == s.(calls := s.calls[id := t.calls[id]]) && CallOk(t, id)
    requires id in s.calls && Leads(s.calls[id].phase) ==>
      Leads(t.calls[id].phase) && t.calls[id].phase.flight == s.calls[id].phase.flight
    ensures Inv(t)
  {
    forall i | 0 <= i < |t.log| ensures RegisteredOk(t, i) {
      assert RegisteredOk(s, i);
    }
    forall slot | slot in t.cache.store ensures SlotOk(t, slot) {
      assert SlotOk(s, slot);
    }
    forall k | k in t.cache.flights ensures FlightOk(t, k) {
      assert FlightOk(s, k);
    }
    forall other | other in t.calls ensures CallOk(t, other) {
      if other != id {
        assert CallOk(s, other);
      }
    }
  }

  lemma {:induction false} ClockKeeps(s: System, dt: real)
    requires Inv(s) && dt >= 0.0
    ensures Inv(Next(s, TimePasses(dt)))
  {
    var t := Next(s, TimePasses(dt));
    forall i | 0 <= i < |t.log| ensures RegisteredOk(t, i) {
      assert RegisteredOk(s, i);
    }
    forall slot | slot in t.cache.store ensures SlotOk(t, slot) {
      assert SlotOk(s, slot);
    }
    forall k | k in t.cache.flights ensures FlightOk(t, k) {
      assert FlightOk(s, k);
    }
    forall id | id in t.calls ensures CallOk(t, id) {
      assert CallOk(s, id);
    }
  }

  /** A change of the store alone that adds no slot and stays in bounds. */
  lemma {:induction false} Dropping(s: System, store: seq<Slot>, prunedAt: Option<real>)
    requires Inv(s) && Fits(s.limits, store) && forall slot :: slot in store ==> slot in s.cache.store
    ensures Inv(s.(cache := s.cache.(store := store, prunedAt := prunedAt)))
  {
    forall slot | slot in store ensures SlotOk(s, slot) {
      assert slot in s.cache.store;
    }
    Restoring(s, store, prunedAt);
  }

  lemma {:induction false} ClearKeeps(s: System)
    requires Inv(s)
    ensures Inv(Next(s, Clears))
  {
    var t := Next(s, Clears);
    DiscardKeepsBounded(s.limits, s.cache, "");
    forall i | 0 <= i < |t.log| ensures RegisteredOk(t, i) {
      assert RegisteredOk(s, i);
    }
    forall k | k in t.cache.flights ensures FlightOk(t, k) {
      assert FlightOk(s, k);
    }
    forall id | id in t.calls ensures CallOk(t, id) {
      assert CallOk(s, id);
    }
  }

  lemma {:induction false} DiscardKeeps(s: System, key: ViewKey)
    requires Inv(s)
    ensures Inv(Next(s, Discards(key)))
  {
    DiscardKeepsBounded(s.limits, s.cache, key);
    Dropping(s, Remove(s.cache.store, key), s.cache.prunedAt);
  }

  lemma {:induction false} RegisteringLog(s: System, t: System, r: Registered)
    requires LogOk(s) && TokensOk(s) && t.log == s.log + [r] && t.tokens == s.tokens
    requires t.cache.gen == s.cache.gen && t.cache.issued == |t.log|
    requires r.gen == s.cache.gen && r.commits == s.Commits() && r.token.gen <= r.gen && r.outcome.None?
    requires r.token.version.Some? ==> r.tokenAt < |s.tokens| && s.tokens[r.tokenAt] == r.token.version.value
    requires r.from.Some? ==> 1 <= r.from.value <= |s.log| && s.log[r.from.value - 1].key == r.key
    requires r.leader in t.calls && t.calls[r.leader].phase == Leading(Flight(r.token, |t.log|))
    requires forall id :: id in s.calls && Leads(s.calls[id].phase) ==> id in t.calls && t.calls[id] == s.calls[id]
    ensures LogOk(t)
  {
    forall i | 0 <= i < |t.log| ensures RegisteredOk(t, i) {
      if i < |s.log| {
        assert RegisteredOk(s, i);
      }
    }
    forall i, j | 0 <= i < j < |t.log| ensures t.log[i].gen <= t.log[j].gen && t.log[i].commits <= t.log[j].commits {
      if j == |s.log| {
        assert RegisteredOk(s, i);
      }
    }
  }

  /** A new flight for a call whose token is the flight's, or which takes one over. */
  lemma {:induction false} Registering(s: System, id: nat, c: Call, f: Flight, tokenAt: nat, from: Option<nat>)
    requires Inv(s) && id in s.calls && !Leads(s.calls[id].phase)
    requires c == s.calls[id].(phase := c.phase, lockClears := c.lockClears) && c.phase == Leading(f)
    requires f.seqNo == s.cache.issued + 1 && f.token.gen <= s.cache.gen && c.lockClears <= s.cache.gen
    requires f.token.version.Some? ==> tokenAt < |s.tokens| && s.tokens[tokenAt] == f.token.version.value
    requires from.Some? ==> 1 <= from.value <= |s.log| && s.log[from.value - 1].key == c.key
    ensures Inv(With(s.(cache := s.cache.(flights := s.cache.flights[c.key := f], issued := f.seqNo),
                        log := s.log + [Registered(c.key, f.token, tokenAt, s.cache.gen, s.Commits(),
                                                   id, from, None)]), id, c))
  {
    var r := Registered(c.key, f.token, tokenAt, s.cache.gen, s.Commits(), id, from, None);
    var cache := s.cache.(flights := s.cache.flights[c.key := f], issued := f.seqNo);
    var t := With(s.(cache := cache, log := s.log + [r]), id, c);
    assert CallOk(s, id);
    RegisteringLog(s, t, r);
    RegisteringFlights(s, t, r, f);
    RegisteringCalls(s, t, r, id);
    forall slot | slot in t.cache.store ensures SlotOk(t, slot) {
      assert SlotOk(s, slot);
    }
  }

  lemma {:induction false} RegisteringFlights(s: System, t: System, r: Registered, f: Flight)
    requires LogOk(s) && forall k :: k in s.cache.flights ==> FlightOk(s, k)
    requires t.log == s.log + [r] && f.seqNo == |t.log| && r.token == f.token && r.outcome.None?
    requires t.cache.flights == s.cache.flights[r.key := f]
    ensures forall k :: k in t.cache.flights ==> FlightOk(t, k)
  {
    forall k | k in t.cache.flights ensures FlightOk(t, k) {
      if k != r.key {
        assert FlightOk(s, k);
      }
    }
  }

  lemma {:induction false} RegisteringCalls(s: System, t: System, r: Registered, id: nat)
    requires forall other :: other in s.calls ==> CallOk(s, other)
    requires t.log == s.log + [r] && t.tokens == s.tokens && t.clock == s.clock && t.cache.gen == s.cache.gen
    requires id in t.calls && t.calls == s.calls[id := t.calls[id]] && CallOk(t, id)
    ensures forall other :: other in t.calls ==> CallOk(t, other)
  {
    hide CallOk;
    forall other | other in t.calls ensures CallOk(t, other) {
      if other != id {
        RegisteringCall(s, t, r, other);
      }
    }
  }

  lemma {:induction false} RegisteringCall(s: System, t: System, r: Registered, other: nat)
    requires other in s.calls && other in t.calls && t.calls[other] == s.calls[other] && CallOk(s, other)
    requires t.log == s.log + [r] && t.tokens == s.tokens && t.clock == s.clock && t.cache.gen == s.cache.gen
    ensures CallOk(t, other)
  {
    hide Fresh, ServedAcross;
  }

  /** The token a joined flight carries was read at the same commit as the caller's. */
  lemma {:induction false} SharedToken(s: System, c: Call, f: Flight)
    requires Inv(s) && c.key in s.cache.flights && s.cache.flights[c.key] == f
    requires c.version.Some? ==> c.tokenAt < |s.tokens| && s.tokens[c.tokenAt] == c.version.value
    requires f.token.version == c.version && c.lockClears == f.token.gen
    ensures Serves(s, c, f)
  {
    assert FlightOk(s, c.key);
    assert RegisteredOk(s, f.seqNo - 1);
  }

  /** An entry made for the caller's version shows data at least as new as its token. */
  lemma {:induction false} SharedEntry(s: System, c: Call, slot: Slot)
    requires Inv(s) && slot in s.cache.store
    requires c.version.Some? ==> c.tokenAt < |s.tokens| && s.tokens[c.tokenAt] == c.version.value
    requires c.lockClears == s.cache.gen
    requires IsValid(s.limits, slot.entry, s.cache.gen, c.version, c.now)
    ensures Fresh(c, slot.entry.value, ByHit(slot.entry)) && ServedAcross(c, slot.entry)
  {
    assert SlotOk(s, slot);
    assert RegisteredOk(s, slot.entry.seqNo - 1);
  }

  /** A call about to take the lock, and what it will record then. */
  predicate AtLock(s: System, id: nat, c: Call) {
    id in s.calls && s.calls[id].phase.HasClock? && c == s.calls[id].(lockClears := s.clears)
  }

  function Looks(s: System, c: Call): (State, Entered) {
    EnterPruned(s.limits, s.cache, c.key, c.version, c.now, c.wait)
  }

  lemma {:induction false} HitKeeps(s: System, id: nat, c: Call)
    requires Inv(s) && AtLock(s, id, c) && Looks(s, c).1.Hit?
    ensures Inv(Enters(s.(cache := Looks(s, c).0), id, c, Looks(s, c).1))
  {
    var entry := Looks(s, c).1.entry;
    assert CallOk(s, id);
    ReplacedAtEnd(s.cache.store, c.key, entry);
    var moved := Remove(s.cache.store, c.key) + [Slot(c.key, entry)];
    Dropping(s, moved, s.cache.prunedAt);
    SharedEntry(s, c, Slot(c.key, entry));
    var s1 := s.(cache := s.cache.(store := moved));
    MovingACall(s1, With(s1, id, c.(phase := Returned(entry.value, ByHit(entry)))), id);
  }

  lemma {:induction false} JoinKeeps(s: System, id: nat, c: Call)
    requires Inv(s) && AtLock(s, id, c) && (Looks(s, c).1.Join? || Looks(s, c).1.WouldWait?)
    ensures Inv(Enters(s.(cache := Looks(s, c).0), id, c, Looks(s, c).1))
  {
    assert CallOk(s, id);
    SharedToken(s, c, s.cache.flights[c.key]);
    MovingACall(s, Enters(s.(cache := Looks(s, c).0), id, c, Looks(s, c).1), id);
  }

  lemma {:induction false} LeadKeeps(s: System, id: nat, c: Call)
    requires Inv(s) && AtLock(s, id, c) && Looks(s, c).1.Lead?
    ensures Inv(Enters(s.(cache := Looks(s, c).0), id, c, Looks(s, c).1))
  {
    hide LogOk, StoreOk, TokensOk, FlightOk, PruneIfDue;
    assert CallOk(s, id);
    var f := Looks(s, c).1.flight;
    Registering(s, id, c.(phase := Leading(f)), f, c.tokenAt, None);
  }

  lemma {:induction false} DueKeeps(s: System, now: real)
    requires Inv(s)
    ensures Inv(s.(cache := PruneIfDue(s.limits, s.cache, now)))
  {
    var p := PruneIfDue(s.limits, s.cache, now);
    PruneIsBounded(s.limits, s.cache, now);
    Dropping(s, p.store, p.prunedAt);
  }

  lemma {:induction false} LookKeeps(s: System, id: nat, c: Call)
    requires Inv(s) && AtLock(s, id, c)
    ensures Inv(Enters(s.(cache := Looks(s, c).0), id, c, Looks(s, c).1))
  {
    match Looks(s, c).1
    case Hit(_) => HitKeeps(s, id, c);
    case Join(_) => JoinKeeps(s, id, c);
    case WouldWait(_) => JoinKeeps(s, id, c);
    case Lead(_) => LeadKeeps(s, id, c);
  }

  lemma {:induction false} LockKeeps(s: System, id: nat)
    requires Inv(s) && Enabled(s, TakesLock(id))
    ensures Inv(LockStep(s, id))
  {
    var c := s.calls[id];
    DueKeeps(s, c.now);
    LookKeeps(s.(cache := PruneIfDue(s.limits, s.cache, c.now)), id, c.(lockClears := s.clears));
  }

  lemma {:induction false} SwitchKeeps(s: System, id: nat, g: Flight)
    requires Inv(s) && id in s.calls && s.calls[id].phase.Following?
    requires s.calls[id].key in s.cache.flights && g == s.cache.flights[s.calls[id].key]
    ensures Inv(With(s, id, s.calls[id].(phase := Following(g))))
    ensures g == s.calls[id].phase.flight || g.seqNo > s.calls[id].phase.flight.seqNo
  {
    assert CallOk(s, id) && FlightOk(s, s.calls[id].key);
    MovingACall(s, With(s, id, s.calls[id].(phase := Following(g))), id);
  }

  lemma {:induction false} NewerKeeps(s: System, id: nat, entry: Entry)
    requires Inv(s) && id in s.calls && s.calls[id].phase.Following?
    requires Slot(s.calls[id].key, entry) in s.cache.store && entry.seqNo > s.calls[id].phase.flight.seqNo
    ensures Inv(With(s, id, s.calls[id].(phase := Returned(entry.value, ByNewer(entry)))))
  {
    assert CallOk(s, id) && SlotOk(s, Slot(s.calls[id].key, entry));
    MovingACall(s, With(s, id, s.calls[id].(phase := Returned(entry.value, ByNewer(entry)))), id);
  }

  lemma {:induction false} TimeoutKeeps(s: System, id: nat)
    requires Inv(s) && Enabled(s, TimesOut(id))
    ensures Inv(Next(s, TimesOut(id)))
  {
    var c := s.calls[id];
    var f := c.phase.flight;
    match FollowTimeout(s.cache, c.key, f, Done(s, f)).1
    case AlreadyDone =>
    case Newer(entry) => NewerKeeps(s, id, entry);
    case Switch(g) => SwitchKeeps(s, id, g);
    case TakeOver(own) => TakeOverKeeps(s, id, own);
  }

  lemma {:induction false} TakeOverKeeps(s: System, id: nat, own: Flight)
    requires Inv(s) && Enabled(s, TimesOut(id))
    requires var c := s.calls[id];
      FollowTimeout(s.cache, c.key, c.phase.flight, Done(s, c.phase.flight)).1 == TakeOver(own)
    ensures Inv(Next(s, TimesOut(id)))
  {
    var c := s.calls[id];
    var f := c.phase.flight;
    assert CallOk(s, id) && RegisteredOk(s, f.seqNo - 1);
    Registering(s, id, c.(phase := Leading(own)), own, Log(s, f).tokenAt, Some(f.seqNo));
  }

  /** A change of the store that keeps every slot in order. */
  lemma {:induction false} Restoring(s: System, store: seq<Slot>, prunedAt: Option<real>)
    requires Inv(s) && Fits(s.limits, store) && forall slot :: slot in store ==> SlotOk(s, slot)
    ensures Inv(s.(cache := s.cache.(store := store, prunedAt := prunedAt)))
  {
    var t := s.(cache := s.cache.(store := store, prunedAt := prunedAt));
    forall i | 0 <= i < |t.log| ensures RegisteredOk(t, i) {
      assert RegisteredOk(s, i);
    }
    forall slot | slot in t.cache.store ensures SlotOk(t, slot) {
      assert SlotOk(s, slot);
    }
    forall k | k in t.cache.flights ensures FlightOk(t, k) {
      assert FlightOk(s, k);
    }
    forall id | id in t.calls ensures CallOk(t, id) {
      assert CallOk(s, id);
    }
  }

  lemma {:induction false} StoreKeeps(s: System, id: nat)
    requires Inv(s) && Enabled(s, StoresResult(id))
    ensures Inv(Next(s, StoresResult(id)))
  {
    hide LogOk, FlightOk;
    var c := s.calls[id];
    var f := c.phase.flight;
    var value := c.phase.outcome.value;
    assert CallOk(s, id);
    var after := Store(s.limits, s.cache, c.key, f, value, c.timeRelative, s.clock);
    StoreKeepsBounded(s.limits, s.cache, c.key, f, value, c.timeRelative, s.clock);
    StoreContents(s.limits, s.cache, c.key, f, value, c.timeRelative, s.clock);
    forall slot | slot in after.store ensures SlotOk(s, slot) {
    }
    Restoring(s, after.store, after.prunedAt);
    var s1 := s.(cache := after);
    assert CallOk(s1, id);
    MovingACall(s1, Next(s, StoresResult(id)), id);
  }

  lemma {:induction false} FinishKeepsLog(s: System, id: nat)
    requires Inv(s) && Enabled(s, FinishesFlight(id))
    ensures LogOk(FinishStep(s, id))
  {
    var f := s.calls[id].phase.flight;
    assert CallOk(s, id);
    var t := FinishStep(s, id);
    forall i | 0 <= i < |t.log| ensures RegisteredOk(t, i) {
      assert RegisteredOk(s, i);
    }
  }

  /** Apart from the outcome, the log stays as it was. */
  lemma {:induction false} FinishedLog(s: System, id: nat, g: Flight)
    requires Inv(s) && Enabled(s, FinishesFlight(id)) && Exists(s, g)
    ensures var t, f := FinishStep(s, id), s.calls[id].phase.flight;
      && Exists(t, g) && Log(t, g) == Log(s, g).(outcome := Log(t, g).outcome)
      && (g.seqNo != f.seqNo ==> Log(t, g) == Log(s, g))
      && t.tokens == s.tokens && t.clock == s.clock && t.cache.gen == s.cache.gen
      && forall other :: other in s.calls && other != id ==> other in t.calls && t.calls[other] == s.calls[other]
  {
  }

  lemma {:induction false} FinishKeepsOthers(s: System, id: nat, other: nat)
    requires Inv(s) && Enabled(s, FinishesFlight(id)) && other in s.calls && other != id
    ensures other in FinishStep(s, id).calls && CallOk(FinishStep(s, id), other)
  {
    hide FinishStep, LogOk, StoreOk, TokensOk, FlightOk;
    assert CallOk(s, id) && CallOk(s, other);
    var f := s.calls[id].phase.flight;
    FinishedLog(s, id, f);
    var p := s.calls[other].phase;
    if Leads(p) || p.Following? || p.Pending? {
      FinishedLog(s, id, p.flight);
    }
  }

  lemma {:induction false} FinishKeepsOwn(s: System, id: nat)
    requires Inv(s) && Enabled(s, FinishesFlight(id))
    ensures id in FinishStep(s, id).calls && CallOk(FinishStep(s, id), id)
  {
    hide LogOk, StoreOk, TokensOk, FlightOk;
    assert CallOk(s, id);
  }

  lemma {:induction false} TokensSame(s: System, t: System)
    requires TokensOk(s) && t.tokens == s.tokens
    ensures TokensOk(t)
  {
  }

  lemma {:induction false} FinishKeeps(s: System, id: nat)
    requires Inv(s) && Enabled(s, FinishesFlight(id))
    ensures Inv(FinishStep(s, id))
  {
    hide LogOk, TokensOk;
    assert CallOk(s, id);
    var t := FinishStep(s, id);
    assert TokensOk(t) by {
      assert t.tokens == s.tokens;
      TokensSame(s, t);
    }
    FinishKeepsLog(s, id);
    forall slot | slot in t.cache.store ensures SlotOk(t, slot) {
      assert SlotOk(s, slot);
    }
    forall k | k in t.cache.flights ensures FlightOk(t, k) {
      assert FlightOk(s, k);
    }
    forall other | other in t.calls ensures CallOk(t, other) {
      if other == id {
        FinishKeepsOwn(s, id);
      } else {
        FinishKeepsOthers(s, id, other);
      }
    }
  }

  lemma {:induction false} ReadingKeeps(s: System, e: Event)
    requires Inv(s) && Enabled(s, e) && (e.Arrives? || e.ReadsToken? || e.ReadsClock?)
    ensures Inv(Next(s, e))
  {
    if !e.Arrives? {
      assert CallOk(s, e.id);
    }
    MovingACall(s, Next(s, e), e.id);
  }

  lemma {:induction false} ComputingKeeps(s: System, e: Event)
    requires Inv(s) && Enabled(s, e) && (e.StartsCompute? || e.EndsCompute?)
    ensures Inv(Next(s, e))
  {
    assert CallOk(s, e.id) && RegisteredOk(s, s.calls[e.id].phase.flight.seqNo - 1);
    MovingACall(s, Next(s, e), e.id);
  }

  lemma {:induction false} ReceivingKeeps(s: System, e: Event)
    requires Inv(s) && Enabled(s, e) && (e.SeesDone? || e.AsksResult?)
    ensures Inv(Next(s, e))
  {
    assert CallOk(s, e.id) && RegisteredOk(s, s.calls[e.id].phase.flight.seqNo - 1);
    if Next(s, e) != s {
      MovingACall(s, Next(s, e), e.id);
    }
  }

  /** Every event keeps the invariant. */
  lemma {:induction false} NextKeeps(s: System, e: Event)
    requires Inv(s) && Enabled(s, e)
    ensures Inv(Next(s, e))
  {
    match e
    case Commits(token) => CommitKeeps(s, token);
    case TimePasses(dt) => ClockKeeps(s, dt);
    case TakesLock(id) => LockKeeps(s, id);
    case StoresResult(id) => StoreKeeps(s, id);
    case FinishesFlight(id) => FinishKeeps(s, id);
    case TimesOut(id) => TimeoutKeeps(s, id);
    case Clears => ClearKeeps(s);
    case Discards(key) => DiscardKeeps(s, key);
    case Arrives(_, _, _, _) => ReadingKeeps(s, e);
    case ReadsToken(_, _) => ReadingKeeps(s, e);
    case ReadsClock(_) => ReadingKeeps(s, e);
    case StartsCompute(_) => ComputingKeeps(s, e);
    case EndsCompute(_, _, _, _) => ComputingKeeps(s, e);
    case SeesDone(_) => ReceivingKeeps(s, e);
    case AsksResult(_) => ReceivingKeeps(s, e);
  }

  lemma {:induction false} RunKeeps(s: System, run: seq<Event>)
    requires Inv(s) && Possible(s, run)
    ensures Inv(After(s, run))
    decreases |run|
  {
    if run != [] {
      NextKeeps(s, run[0]);
      RunKeeps(Next(s, run[0]), run[1..]);
    }
  }

  // --------------------------------------------------------------------- main results

  /**
   In every run, no call returns a value whose computation started before the last `clear`
   that preceded the call's lock: not by hit, lead, follow, takeover, newer entry, or
   `ComputationPending.result`.
   */
  lemma {:induction false} NothingFromBeforeClear(limits: Limits, token: Version, run: seq<Event>, id: nat)
    requires limits.Enabled() && Possible(Initial(limits, token), run)
    requires var s := After(Initial(limits, token), run); id in s.calls && s.calls[id].phase.Returned?
    ensures var c := After(Initial(limits, token), run).calls[id]; c.lockClears <= c.phase.value.begun
  {
    RunKeeps(Initial(limits, token), run);
    assert CallOk(After(Initial(limits, token), run), id);
  }

  predicate AlwaysReadable(run: seq<Event>) {
    forall e :: e in run ==> e.ReadsToken? ==> e.readable
  }

  ghost predicate AllRead(s: System) {
    && (forall i :: 0 <= i < |s.log| ==> s.log[i].token.version.Some?)
    && (forall id :: id in s.calls ==> !s.calls[id].phase.Start? ==> s.calls[id].version.Some?)
    && (forall id :: id in s.calls ==>
          s.calls[id].phase.Returned? && s.calls[id].phase.source.ByHit? ==>
            s.calls[id].phase.source.entry.token.version.Some?)
  }

  lemma {:induction false} ReadableEnters(s: System, id: nat, c: Call, cache: State, entered: Entered)
    requires Inv(s) && AllRead(s) && id in s.calls && !s.calls[id].phase.Start?
    requires c == s.calls[id].(lockClears := s.clears)
    requires entered.Hit? ==> entered.entry.token.version.Some?
    requires entered.Lead? ==> entered.flight.token.version.Some?
    ensures AllRead(Enters(s.(cache := cache), id, c, entered))
  {
  }

  lemma {:induction false} ReadableLock(s: System, id: nat)
    requires Inv(s) && AllRead(s) && Enabled(s, TakesLock(id))
    ensures AllRead(LockStep(s, id))
  {
    var c := s.calls[id];
    var (cache, entered) := Enter(s.limits, s.cache, c.key, c.version, c.now, c.wait);
    EnterFinds(s.limits, s.cache, c.key, c.version, c.now, c.wait);
    if entered.Hit? {
      assert SlotOk(s, Slot(c.key, entered.entry));
    }
    ReadableEnters(s, id, c.(lockClears := s.clears), cache, entered);
  }

  lemma {:induction false} ReadableTimeout(s: System, id: nat)
    requires Inv(s) && AllRead(s) && Enabled(s, TimesOut(id))
    ensures AllRead(TimeoutStep(s, id))
  {
    hide LogOk, StoreOk, TokensOk, FlightOk, Bounded;
    assert CallOk(s, id);
  }

  lemma {:induction false} ReadableStep(s: System, e: Event)
    requires Inv(s) && AllRead(s) && Enabled(s, e) && (e.ReadsToken? ==> e.readable)
    ensures AllRead(Next(s, e))
  {
    hide LogOk, StoreOk, TokensOk, CallOk, FlightOk, Bounded, LockStep, TimeoutStep;
    match e
    case TakesLock(id) => ReadableLock(s, id);
    case TimesOut(id) => ReadableTimeout(s, id);
    case _ =>
  }

  lemma {:induction false} ReadableRun(s: System, run: seq<Event>)
    requires Inv(s) && AllRead(s) && Possible(s, run) && AlwaysReadable(run)
    ensures AllRead(After(s, run))
    decreases |run|
  {
    if run != [] {
      NextKeeps(s, run[0]);
      ReadableStep(s, run[0]);
      ReadableRun(Next(s, run[0]), run[1..]);
    }
  }

  /**
   In every run, a call that could read the token returns a value that shows the data at
   least as of the commit at which it read it, on every path, except a hit on an entry
   whose own token could not be read, or which is of another version and was stored after
   the caller had read the clock.
   */
  lemma {:induction false} NothingOlderThanToken(limits: Limits, token: Version, run: seq<Event>, id: nat)
    requires limits.Enabled() && Possible(Initial(limits, token), run)
    requires var s := After(Initial(limits, token), run);
      id in s.calls && s.calls[id].phase.Returned? && s.calls[id].version.Some?
    ensures var c := After(Initial(limits, token), run).calls[id];
      c.tokenAt <= c.phase.value.readAt
      || (c.phase.source.ByHit? && !MadeForCaller(c, c.phase.source.entry)
          && (c.phase.source.entry.token.version.None? || c.now < c.phase.source.entry.storedAt))
  {
    RunKeeps(Initial(limits, token), run);
    assert CallOk(After(Initial(limits, token), run), id);
  }

  /** If every token can be read, only the second exception is left. */
  lemma {:induction false} OnlyTheClockIsLeft(limits: Limits, token: Version, run: seq<Event>, id: nat)
    requires limits.Enabled() && Possible(Initial(limits, token), run) && AlwaysReadable(run)
    requires var s := After(Initial(limits, token), run); id in s.calls && s.calls[id].phase.Returned?
    ensures var c := After(Initial(limits, token), run).calls[id];
      c.tokenAt <= c.phase.value.readAt
      || (c.phase.source.ByHit? && !MadeForCaller(c, c.phase.source.entry) && c.now < c.phase.source.entry.storedAt)
  {
    RunKeeps(Initial(limits, token), run);
    ReadableRun(Initial(limits, token), run);
    assert CallOk(After(Initial(limits, token), run), id);
  }

  /**
   The exception happens.  Call 0 computes from the data before a commit and stores its
   result after call 1 has read the new token and the clock; call 1 then hits it.
   */
  lemma {:induction false} StaleHitHappens()
    ensures var start := Initial(Limits(1.0, 15.0, 256, None), 7);
      var run := FirstComputes() + OtherReads() + [StoresResult(0), TakesLock(1)];
      && Possible(start, run) && AlwaysReadable(run)
      && var s := After(start, run);
         1 in s.calls && s.calls[1].phase.Returned? && s.calls[1].phase.value.readAt < s.calls[1].tokenAt
  {
    hide Next, Enabled, After, Possible;
    var start := Initial(Limits(1.0, 15.0, 256, None), 7);
    StaleStart();
    StaleMiddle();
    StaleEnd();
    Compose(start, FirstComputes(), OtherReads());
    Compose(start, FirstComputes() + OtherReads(), [StoresResult(0), TakesLock(1)]);
  }

  function FirstComputes(): seq<Event> {
    [Arrives(0, "view", false, true), ReadsToken(0, true), ReadsClock(0), TakesLock(0), StartsCompute(0),
     EndsCompute(0, None, None, true)]
  }

  function OtherReads(): seq<Event> {
    [Commits(8), Arrives(1, "view", false, true), ReadsToken(1, true), ReadsClock(1), TimePasses(0.5)]
  }

  const STALE_FLIGHT := Flight(Token(0, Some(7)), 1)

  const STALE_COMPUTED :=
    System(Limits(1.0, 15.0, 256, None),
           State.State(0, [], Some(0.0), map["view" := STALE_FLIGHT], 1), 0.0, [7],
           map[0 := Call("view", false, true, Some(7), 0, 0.0, 0,
                         Computed(STALE_FLIGHT, Produced(Value(0, 0, None)), true))],
           [Registered("view", STALE_FLIGHT.token, 0, 0, 0, 0, None, None)], 0)

  const STALE_WAITING :=
    STALE_COMPUTED.(clock := 0.5, tokens := [7, 8],
                    calls := STALE_COMPUTED.calls[1 := Call("view", false, true, Some(8), 1, 0.0, 0, HasClock)])

  lemma {:induction false} StaleStart()
    ensures var s := Initial(Limits(1.0, 15.0, 256, None), 7);
      Possible(s, FirstComputes()) && After(s, FirstComputes()) == STALE_COMPUTED
  {
    var run := FirstComputes();
    var s0 := Initial(Limits(1.0, 15.0, 256, None), 7);
    var s1 := Next(s0, run[0]);
    var s2 := Next(s1, run[1]);
    var s3 := Next(s2, run[2]);
    var s4 := Next(s3, run[3]);
    assert s4.cache == STALE_COMPUTED.cache && s4.calls[0].phase == Leading(STALE_FLIGHT);
    var s5 := Next(s4, run[4]);
    var s6 := Next(s5, run[5]);
    assert s6 == STALE_COMPUTED;
    Unfold(s5, run[5..]);
    Unfold(s4, run[4..]);
    Unfold(s3, run[3..]);
    Unfold(s2, run[2..]);
    Unfold(s1, run[1..]);
  }

  lemma {:induction false} StaleMiddle()
    ensures Possible(STALE_COMPUTED, OtherReads()) && After(STALE_COMPUTED, OtherReads()) == STALE_WAITING
  {
    var run := OtherReads();
    var s1 := Next(STALE_COMPUTED, run[0]);
    var s2 := Next(s1, run[1]);
    var s3 := Next(s2, run[2]);
    var s4 := Next(s3, run[3]);
    var s5 := Next(s4, run[4]);
    assert s5 == STALE_WAITING;
    Unfold(s4, run[4..]);
    Unfold(s3, run[3..]);
    Unfold(s2, run[2..]);
    Unfold(s1, run[1..]);
  }

  lemma {:induction false} StaleEnd()
    ensures var run := [StoresResult(0), TakesLock(1)];
      Possible(STALE_WAITING, run)
      && After(STALE_WAITING, run).calls.Keys == {0, 1}
      && var c := After(STALE_WAITING, run).calls[1];
         c.phase.Returned? && c.phase.value.readAt < c.tokenAt
  {
    var run := [StoresResult(0), TakesLock(1)];
    var s1 := Next(STALE_WAITING, run[0]);
    var entry := Entry(Value(0, 0, None), STALE_FLIGHT.token, 0.5, false, 1, 0);
    StoredSurvivesPruning(s1.limits, STALE_WAITING.cache, "view", STALE_FLIGHT, Value(0, 0, None), false, 0.5);
    assert Find(s1.cache.store, "view") == Some(entry);
    assert PruneIfDue(s1.limits, s1.cache, 0.0) == s1.cache;
    assert Enter(s1.limits, s1.cache, "view", Some(8), 0.0, true).1 == Hit(entry);
    Unfold(s1, run[1..]);
  }

  lemma {:induction false} Unfold(s: System, run: seq<Event>)
    requires run != [] && Enabled(s, run[0]) && Possible(Next(s, run[0]), run[1..])
    ensures Possible(s, run) && After(s, run) == After(Next(s, run[0]), run[1..])
  {
  }

  lemma {:induction false} Compose(s: System, a: seq<Event>, b: seq<Event>)
    requires Possible(s, a) && Possible(After(s, a), b)
    ensures Possible(s, a + b) && After(s, a + b) == After(After(s, a), b)
    decreases |a|
  {
    if a == [] {
      assert a + b == b;
    } else {
      Compose(Next(s, a[0]), a[1..], b);
      assert (a + b)[1..] == a[1..] + b;
    }
  }

  /** A follower that moves on moves to a computation registered later, or to its own. */
  lemma {:induction false} FollowersMoveForward(s: System, id: nat)
    requires Inv(s) && Enabled(s, TimesOut(id))
    ensures var f := s.calls[id].phase.flight;
      var after := Next(s, TimesOut(id)).calls[id].phase;
      && (after.Following? ==> after.flight == f || after.flight.seqNo > f.seqNo)
      && (after.Leading? ==> after.flight.seqNo > f.seqNo && after.flight.token == f.token)
      && (after.Returned? ==> after.source.ByNewer? && after.source.entry.seqNo > f.seqNo)
  {
    assert CallOk(s, id);
    var c := s.calls[id];
    if c.key in s.cache.flights {
      assert FlightOk(s, c.key);
    }
  }

  /**
   A follower whose wait timed out computes itself exactly if nothing else is left: the
   computation it follows is not finished, no result of a later one is stored, and no other
   one is registered.  If it is finished, the follower gets its outcome.
   */
  lemma {:induction false} TakesOverIff(s: System, id: nat)
    requires Inv(s) && Enabled(s, TimesOut(id))
    ensures var c := s.calls[id]; var f := c.phase.flight;
      var after := Next(s, TimesOut(id)).calls[id].phase;
      var newer := exists e :: Slot(c.key, e) in s.cache.store && e.seqNo > f.seqNo;
      && (Log(s, f).outcome.Some? ==> Next(s, TimesOut(id)) == s && Enabled(s, SeesDone(id)))
      && (after.Returned? <==> Log(s, f).outcome.None? && newer)
      && (after.Leading? <==>
            Log(s, f).outcome.None? && !newer && (c.key in s.cache.flights ==> s.cache.flights[c.key] == f))
  {
    assert CallOk(s, id);
    var c := s.calls[id];
    FindUnique(s.cache.store, c.key);
  }

  lemma {:induction false} FindUnique(store: seq<Slot>, key: ViewKey)
    requires Unique(store)
    ensures forall e :: Slot(key, e) in store <==> Find(store, key) == Some(e)
  {
    forall e | Slot(key, e) in store ensures Find(store, key) == Some(e) {
      var i :| 0 <= i < |store| && store[i] == Slot(key, e);
      var found := Find(store, key);
      assert found.Some?;
      var j :| 0 <= j < |store| && store[j] == Slot(key, found.value);
    }
  }

  /** A call that waits is never told to ask later, and one that does not never follows. */
  lemma {:induction false} WaitingIsAsAsked(s: System, id: nat)
    requires Enabled(s, TakesLock(id))
    ensures var phase := LockStep(s, id).calls[id].phase;
      if s.calls[id].wait then !phase.Pending? else !phase.Following?
  {
  }

  /** While a takeover of a flight is registered, no second one starts. */
  lemma {:induction false} OneTakeoverAtATime(s: System, id: nat, k: ViewKey)
    requires Inv(s) && Enabled(s, TimesOut(id)) && Next(s, TimesOut(id)).calls[id].phase.Leading?
    requires k in s.cache.flights
    ensures Log(s, s.cache.flights[k]).from != Some(s.calls[id].phase.flight.seqNo)
  {
    assert CallOk(s, id) && FlightOk(s, k);
    assert RegisteredOk(s, s.cache.flights[k].seqNo - 1);
  }

  /** No call is stuck: it can take a step itself, or waits for a leader that can. */
  lemma {:induction false} NobodyIsStuck(s: System, id: nat)
    requires Inv(s) && id in s.calls
    requires !s.calls[id].phase.Returned? && !s.calls[id].phase.Raised? && !s.calls[id].phase.Pending?
    ensures CanStep(s, id)
      || (s.calls[id].phase.Following? && CanStep(s, Log(s, s.calls[id].phase.flight).leader))
  {
    assert CallOk(s, id);
    if s.calls[id].phase.Following? {
      var f := s.calls[id].phase.flight;
      assert RegisteredOk(s, f.seqNo - 1);
      if !Done(s, f) {
        assert CallOk(s, Log(s, f).leader);
      }
    }
  }

  predicate CanStep(s: System, id: nat) {
    || Enabled(s, ReadsToken(id, true)) || Enabled(s, ReadsClock(id)) || Enabled(s, TakesLock(id))
    || Enabled(s, StartsCompute(id)) || Enabled(s, EndsCompute(id, None, None, true))
    || Enabled(s, StoresResult(id)) || Enabled(s, FinishesFlight(id)) || Enabled(s, SeesDone(id))
  }

  /** No timeout, no change of the data, no `clear`, and every token read succeeds. */
  predicate Quiet(e: Event) {
    !e.TimesOut? && !e.Commits? && !e.Clears? && (e.ReadsToken? ==> e.readable)
  }

  ghost predicate OneFlightPerKey(s: System, token: Version) {
    && s.tokens == [token] && s.cache.gen == 0
    && (forall id :: id in s.calls ==> !s.calls[id].phase.Start? ==> s.calls[id].version == Some(token))
    && (forall i :: 0 <= i < |s.log| ==> s.log[i].token == Token(0, Some(token)))
    && (forall i :: 0 <= i < |s.log| ==> s.log[i].outcome.None? ==>
          s.log[i].key in s.cache.flights && s.cache.flights[s.log[i].key] == Flight(s.log[i].token, i + 1))
  }

  lemma {:induction false} QuietEnters(s: System, id: nat, c: Call, cache: State, entered: Entered, token: Version)
    requires OneFlightPerKey(s, token) && id in s.calls && c == s.calls[id].(lockClears := 0)
    requires s.calls[id].phase.HasClock? && LogOk(s) && cache.gen == 0
    requires !entered.Lead? ==> cache.flights == s.cache.flights
    requires entered.Lead? ==>
      && c.key !in s.cache.flights && cache.flights == s.cache.flights[c.key := entered.flight]
      && entered.flight == Flight(Token(0, Some(token)), s.cache.issued + 1)
    ensures OneFlightPerKey(Enters(s.(cache := cache), id, c, entered), token)
  {
  }

  lemma {:induction false} QuietLock(s: System, id: nat, token: Version)
    requires Inv(s) && OneFlightPerKey(s, token) && Enabled(s, TakesLock(id))
    ensures OneFlightPerKey(LockStep(s, id), token)
  {
    assert CallOk(s, id);
    var c := s.calls[id];
    if c.key in s.cache.flights {
      assert FlightOk(s, c.key);
    }
    var (cache, entered) := Enter(s.limits, s.cache, c.key, c.version, c.now, c.wait);
    EnterFinds(s.limits, s.cache, c.key, c.version, c.now, c.wait);
    QuietEnters(s, id, c.(lockClears := 0), cache, entered, token);
  }

  lemma {:induction false} QuietFinish(s: System, id: nat, token: Version)
    requires Inv(s) && OneFlightPerKey(s, token) && Enabled(s, FinishesFlight(id))
    ensures OneFlightPerKey(FinishStep(s, id), token)
  {
    assert CallOk(s, id);
    var t := FinishStep(s, id);
    forall i | 0 <= i < |t.log| && t.log[i].outcome.None?
      ensures t.log[i].key in t.cache.flights && t.cache.flights[t.log[i].key] == Flight(t.log[i].token, i + 1)
    {
      assert s.log[i].outcome.None?;
    }
  }

  lemma {:induction false} QuietStore(s: System, id: nat, token: Version)
    requires Inv(s) && OneFlightPerKey(s, token) && Enabled(s, StoresResult(id))
    ensures OneFlightPerKey(Next(s, StoresResult(id)), token)
  {
    var p := s.calls[id].phase;
    StoreContents(s.limits, s.cache, s.calls[id].key, p.flight, p.outcome.value, s.calls[id].timeRelative, s.clock);
  }

  lemma {:induction false} QuietStep(s: System, e: Event, token: Version)
    requires Inv(s) && OneFlightPerKey(s, token) && Enabled(s, e) && Quiet(e)
    ensures OneFlightPerKey(Next(s, e), token)
  {
    hide LockStep, FinishStep, StoreOk, TokensOk, FlightOk, Bounded;
    match e
    case TakesLock(id) => QuietLock(s, id, token);
    case FinishesFlight(id) => QuietFinish(s, id, token);
    case StoresResult(id) => QuietStore(s, id, token);
    case _ =>
  }

  lemma {:induction false} QuietRun(s: System, run: seq<Event>, token: Version)
    requires Inv(s) && OneFlightPerKey(s, token) && Possible(s, run) && forall e :: e in run ==> Quiet(e)
    ensures Inv(After(s, run)) && OneFlightPerKey(After(s, run), token)
    decreases |run|
  {
    if run != [] {
      NextKeeps(s, run[0]);
      QuietStep(s, run[0], token);
      QuietRun(Next(s, run[0]), run[1..], token);
    }
  }

  /** Single flight: while nothing changes and nobody times out, one call per key computes. */
  lemma {:induction false} SingleFlight(limits: Limits, token: Version, run: seq<Event>, a: nat, b: nat)
    requires limits.Enabled() && Possible(Initial(limits, token), run) && forall e :: e in run ==> Quiet(e)
    requires var s := After(Initial(limits, token), run);
      && a in s.calls && b in s.calls && Leads(s.calls[a].phase) && Leads(s.calls[b].phase)
      && s.calls[a].key == s.calls[b].key
    ensures a == b
  {
    QuietRun(Initial(limits, token), run, token);
    var s := After(Initial(limits, token), run);
    assert CallOk(s, a) && CallOk(s, b);
  }
}
