/**
 All runs of threads that enter, wait for, leave and cancel their wait for the gate of
 monitor_app/db/gate.py: it is never lost, and nobody is overtaken without bound.
 */
module GateRuns {
  import opened Options
  import opened Gate

  /**
   `waiting` are the threads blocked on their entry's lock; the one that owns the gate has
   been handed it and is about to wake.  `inside` counts how deeply a thread is nested.
   */
  datatype System = System(gate: State, waiting: set<Thread>, inside: map<Thread, nat>)

  datatype Event =
    | Acquire(t: Thread, priority: bool)
    | Wake(t: Thread)
    | Cancel(t: Thread)
    | Release(t: Thread)

  function Depth(s: System, t: Thread): nat {
    if t in s.inside then s.inside[t] else 0
  }

  ghost predicate Next(s: System, e: Event, s': System) {
    match e
    case Acquire(t, priority) =>
      && t !in s.waiting
      && s'.gate == Entered(s.gate, t, priority)
      && (if s.gate.owner.None? || s.gate.owner == Some(t)
          then s'.waiting == s.waiting && s'.inside == s.inside[t := Depth(s, t) + 1]
          else s'.waiting == s.waiting + {t} && s'.inside == s.inside)
    case Wake(t) =>
      && t in s.waiting && !Queued(s.gate, t)
      && s' == System(s.gate, s.waiting - {t}, s.inside[t := 1])
    case Cancel(t) =>
      && t in s.waiting
      && s' == System(Cancelled(s.gate, t), s.waiting - {t}, s.inside)
    case Release(t) =>
      && t !in s.waiting
      && (if s.gate.owner == Some(t) && s.gate.depth > 0
          then s' == System(Released(s.gate), s.waiting, s.inside[t := if Depth(s, t) > 0 then Depth(s, t) - 1 else 0])
          else s' == s)
  }

  // ------------------------------------------------------------------------- safety

  ghost predicate GateOk(g: State) {
    && (g.owner.None? ==> g.first == [] && g.rest == [] && g.streak == 0 && g.depth == 0)
    && (g.owner.Some? ==> g.depth > 0 && !Queued(g, g.owner.value))
    && g.streak <= PRIORITY_STREAK
    && Distinct(g.first) && Distinct(g.rest)
    && forall t :: t in g.first ==> t !in g.rest
  }

  /**
   One owner at most, with its nesting depth; nobody waits for an open gate; a waiting
   thread is queued exactly once or has been handed the gate; and the owner is always a
   thread that is inside or is about to wake, so the gate cannot be lost.
   */
  ghost predicate Inv(s: System) {
    && GateOk(s.gate)
    && (forall t :: t in s.waiting <==> Queued(s.gate, t) || (s.gate.owner == Some(t) && Depth(s, t) == 0))
    && (forall t :: Depth(s, t) > 0 ==> s.gate.owner == Some(t) && s.gate.depth == Depth(s, t))
    && (forall t :: s.gate.owner == Some(t) && Depth(s, t) == 0 ==> s.gate.depth == 1)
  }

  lemma {:induction false} RemovedIs(q: seq<Thread>, t: Thread)
    requires Distinct(q)
    ensures Distinct(Removed(q, t))
    ensures forall u :: u in Removed(q, t) <==> u in q && u != t
  {
    if q != [] {
      if q[0] == t {
        assert forall i :: 0 <= i < |q[1..]| ==> q[1..][i] == q[i + 1];
        forall u ensures u in q[1..] <==> u in q && u != t {
          if u in q && u != t {
            var i :| 0 <= i < |q| && q[i] == u;
            assert q[1..][i - 1] == u;
          }
        }
      } else {
        RemovedIs(q[1..], t);
        assert q == [q[0]] + q[1..] && q[0] !in q[1..];
      }
    }
  }

  lemma {:induction false} HeadGone(q: seq<Thread>)
    requires q != [] && Distinct(q)
    ensures Distinct(q[1..]) && forall u :: u in q[1..] <==> u in q && u != q[0]
  {
    assert q == [q[0]] + q[1..];
    assert forall i :: 0 <= i < |q[1..]| ==> q[1..][i] == q[i + 1];
  }

  /** A hand-over gives the gate to a queued thread, takes it from its queue, and no more. */
  lemma {:induction false} HandedOk(g: State)
    requires GateOk(g.(depth := 1)) && g.owner.Some?
    ensures GateOk(Handed(g))
    ensures Handed(g).owner.None? ==> forall t :: !Queued(g, t)
    ensures Handed(g).owner.Some? ==> Handed(g).depth == 1 && Queued(g, Handed(g).owner.value)
    ensures forall t :: Queued(Handed(g), t) <==> Queued(g, t) && Handed(g).owner != Some(t)
  {
    if PicksFirst(g) {
      HeadGone(g.first);
    } else if g.rest != [] {
      HeadGone(g.rest);
    }
  }

  lemma {:induction false} AcquireKeeps(s: System, t: Thread, priority: bool, s': System)
    requires Inv(s) && Next(s, Acquire(t, priority), s')
    ensures Inv(s')
  {
    AppendIfNew(s.gate.first, t);
    AppendIfNew(s.gate.rest, t);
    assert forall u :: u != t ==> Depth(s', u) == Depth(s, u);
  }

  lemma {:induction false} AppendIfNew(q: seq<Thread>, t: Thread)
    ensures Distinct(q) && t !in q ==> Distinct(q + [t])
    ensures forall u :: u in q + [t] <==> u in q || u == t
  {
  }

  lemma {:induction false} WakeKeeps(s: System, t: Thread, s': System)
    requires Inv(s) && Next(s, Wake(t), s')
    ensures Inv(s')
  {
    assert forall u :: u != t ==> Depth(s', u) == Depth(s, u);
  }

  lemma {:induction false} CancelKeeps(s: System, t: Thread, s': System)
    requires Inv(s) && Next(s, Cancel(t), s')
    ensures Inv(s')
  {
    assert forall u :: Depth(s', u) == Depth(s, u);
    if Queued(s.gate, t) {
      RemovedIs(s.gate.first, t);
      RemovedIs(s.gate.rest, t);
    } else {
      HandedOk(s.gate.(depth := 1));
    }
  }

  lemma {:induction false} ReleaseKeeps(s: System, t: Thread, s': System)
    requires Inv(s) && Next(s, Release(t), s')
    ensures Inv(s')
  {
    if s.gate.owner == Some(t) {
      assert forall u :: u != t ==> Depth(s', u) == Depth(s, u);
      if s.gate.depth == 1 {
        HandedOk(s.gate);
      }
    }
  }

  lemma {:induction false} NextKeeps(s: System, e: Event, s': System)
    requires Inv(s) && Next(s, e, s')
    ensures Inv(s')
  {
    hide Inv, Next;
    match e
    case Acquire(t, priority) => AcquireKeeps(s, t, priority, s');
    case Wake(t) => WakeKeeps(s, t, s');
    case Cancel(t) => CancelKeeps(s, t, s');
    case Release(t) => ReleaseKeeps(s, t, s');
  }

  ghost predicate Run(states: seq<System>, events: seq<Event>) {
    && |states| == |events| + 1
    && forall i :: 0 <= i < |events| ==> Next(states[i], events[i], states[i + 1])
  }

  const IDLE := System(OPEN, {}, map[])

  /** Every reachable state is safe. */
  lemma {:induction false} EveryStateIsSafe(states: seq<System>, events: seq<Event>, i: nat)
    requires Run(states, events) && states[0] == IDLE && i < |states|
    ensures Inv(states[i])
  {
    if i > 0 {
      EveryStateIsSafe(states, events, i - 1);
      NextKeeps(states[i - 1], events[i - 1], states[i]);
    }
  }

  /** Mutual exclusion, and no lost gate: who waits will be let in, or the owner can go on. */
  lemma {:induction false} NobodyIsStuck(states: seq<System>, events: seq<Event>, i: nat)
    requires Run(states, events) && states[0] == IDLE && i < |states|
    ensures var s := states[i];
      && (forall t, u :: Depth(s, t) > 0 && Depth(s, u) > 0 ==> t == u)
      && (s.waiting != {} ==> s.gate.owner.Some?)
      && (forall t :: s.gate.owner == Some(t) ==>
            if t in s.waiting then !Queued(s.gate, t) else s.gate.depth == Depth(s, t) > 0)
  {
    EveryStateIsSafe(states, events, i);
    var s := states[i];
    if s.gate.owner.None? {
      assert forall t :: t !in s.waiting;
    }
  }

  // ------------------------------------------------------------- order and overtaking

  /** How many stand before `t` in its queue. */
  function Position(q: seq<Thread>, t: Thread): (p: nat)
    requires t in q
    ensures p < |q| && q[p] == t
  {
    if q[0] == t then 0 else 1 + Position(q[1..], t)
  }

  lemma {:induction false} PositionAppend(q: seq<Thread>, t: Thread, u: Thread)
    requires t in q
    ensures t in q + [u] && Position(q + [u], t) == Position(q, t)
  {
    if q[0] != t {
      assert (q + [u])[1..] == q[1..] + [u];
      PositionAppend(q[1..], t, u);
    }
  }

  lemma {:induction false} PositionRemoved(q: seq<Thread>, t: Thread, u: Thread)
    requires t in q && t != u
    ensures t in Removed(q, u)
    ensures Position(Removed(q, u), t) == Position(q, t) - (if u in q && Position(q, u) < Position(q, t) then 1 else 0)
  {
    if q[0] != u && q[0] != t {
      PositionRemoved(q[1..], t, u);
      assert ([q[0]] + Removed(q[1..], u))[1..] == Removed(q[1..], u);
    }
  }

  /** The gate went from one thread to another. */
  predicate Handover(s: State, s': State) {
    s.owner.Some? && s'.owner.Some? && s.owner != s'.owner
  }

  function Handovers(states: seq<System>): nat {
    if |states| < 2 then 0
    else Handovers(states[..|states| - 1])
         + if Handover(states[|states| - 2].gate, states[|states| - 1].gate) then 1 else 0
  }

  /** More than the hand-overs a waiter of the second queue can still see go elsewhere. */
  function RestBudget(s: State, t: Thread): int
    requires t in s.rest
  {
    4 * Position(s.rest, t) + PRIORITY_STREAK - s.streak
  }

  function FirstBudget(s: State, t: Thread): int
    requires t in s.first
  {
    var q := Position(s.first, t);
    q + (q + s.streak) / PRIORITY_STREAK
  }

  lemma {:induction false} HandedBudget(g: State, t: Thread)
    requires GateOk(g.(depth := 1)) && g.owner.Some?
    ensures t in Handed(g).rest ==> t in g.rest && RestBudget(Handed(g), t) < RestBudget(g, t)
    ensures t in Handed(g).first ==> t in g.first && FirstBudget(Handed(g), t) < FirstBudget(g, t)
  {
  }

  /**
   A step never raises what a waiter may still have to let pass, and a hand-over to
   someone else lowers it.
   */
  lemma {:induction false} NextBudget(s: System, e: Event, s': System, t: Thread)
    requires Inv(s) && Next(s, e, s')
    ensures t in s.gate.rest && t in s'.gate.rest ==>
      RestBudget(s'.gate, t) + (if Handover(s.gate, s'.gate) then 1 else 0) <= RestBudget(s.gate, t)
    ensures t in s.gate.first && t in s'.gate.first ==>
      FirstBudget(s'.gate, t) + (if Handover(s.gate, s'.gate) then 1 else 0) <= FirstBudget(s.gate, t)
  {
    match e
    case Acquire(u, priority) => EnteredBudget(s.gate, u, priority, t);
    case Wake(u) =>
    case Cancel(u) => CancelledBudget(s, u, t);
    case Release(u) =>
      if s.gate.owner == Some(u) {
        ReleasedBudget(s.gate, u, t);
      }
  }

  lemma {:induction false} EnteredBudget(g: State, u: Thread, priority: bool, t: Thread)
    requires GateOk(g)
    ensures var g' := Entered(g, u, priority);
      && !Handover(g, g')
      && (t in g.rest ==> t in g'.rest && RestBudget(g', t) == RestBudget(g, t))
      && (t in g.first ==> t in g'.first && FirstBudget(g', t) == FirstBudget(g, t))
  {
    if t in g.rest {
      PositionAppend(g.rest, t, u);
    }
    if t in g.first {
      PositionAppend(g.first, t, u);
    }
  }

  lemma {:induction false} CancelledBudget(s: System, u: Thread, t: Thread)
    requires Inv(s) && u in s.waiting
    ensures var g, g' := s.gate, Cancelled(s.gate, u);
      && (t in g.rest && t in g'.rest ==>
            RestBudget(g', t) + (if Handover(g, g') then 1 else 0) <= RestBudget(g, t))
      && (t in g.first && t in g'.first ==>
            FirstBudget(g', t) + (if Handover(g, g') then 1 else 0) <= FirstBudget(g, t))
  {
    var g := s.gate;
    if Queued(g, u) {
      RemovedIs(g.rest, u);
      RemovedIs(g.first, u);
      if t in g.rest && t != u {
        PositionRemoved(g.rest, t, u);
      }
      if t in g.first && t != u {
        PositionRemoved(g.first, t, u);
      }
    } else {
      HandedBudget(g.(depth := 1), t);
    }
  }

  lemma {:induction false} ReleasedBudget(g: State, u: Thread, t: Thread)
    requires GateOk(g) && g.owner.Some?
    ensures var g' := Released(g);
      && (t in g.rest && t in g'.rest ==>
            RestBudget(g', t) + (if Handover(g, g') then 1 else 0) <= RestBudget(g, t))
      && (t in g.first && t in g'.first ==>
            FirstBudget(g', t) + (if Handover(g, g') then 1 else 0) <= FirstBudget(g, t))
  {
    if g.depth == 1 {
      HandedBudget(g, t);
    }
  }

  /** The stretch of a run during which `t` waits in the second queue. */
  ghost predicate WaitsInRest(states: seq<System>, t: Thread) {
    forall i :: 0 <= i < |states| ==> t in states[i].gate.rest
  }

  ghost predicate WaitsInFirst(states: seq<System>, t: Thread) {
    forall i :: 0 <= i < |states| ==> t in states[i].gate.first
  }

  lemma {:induction false} RunCut(states: seq<System>, events: seq<Event>)
    requires Run(states, events) && |events| > 0
    ensures Run(states[..|events|], events[..|events| - 1])
  {
  }

  lemma {:induction false} LastIsSafe(states: seq<System>, events: seq<Event>)
    requires Run(states, events) && Inv(states[0])
    ensures Inv(states[|events|])
    decreases |events|
  {
    hide Inv, Next;
    if |events| > 0 {
      RunCut(states, events);
      LastIsSafe(states[..|events|], events[..|events| - 1]);
      NextKeeps(states[|events| - 1], events[|events| - 1], states[|events|]);
    }
  }

  /**
   Bounded overtaking, second queue: from any safe state on, while `t` with `p` others
   before it waits, the gate changes hands at most 4p + 3 - streak times; whatever arrives
   or is cancelled meanwhile, the next hand-over after these is to `t`.
   */
  lemma {:induction false} RestIsServed(states: seq<System>, events: seq<Event>, t: Thread)
    requires Run(states, events) && Inv(states[0]) && WaitsInRest(states, t)
    ensures Handovers(states) + RestBudget(states[|events|].gate, t) <= RestBudget(states[0].gate, t)
    ensures Inv(states[|events|]) && 0 <= RestBudget(states[|events|].gate, t)
    decreases |events|
  {
    LastIsSafe(states, events);
    if |events| > 0 {
      var n := |events| - 1;
      RunCut(states, events);
      RestIsServed(states[..|events|], events[..n], t);
      NextBudget(states[n], events[n], states[n + 1], t);
    }
  }

  /** The first queue: a waiter behind `q` others lets at most q + (q + streak) / 3 pass. */
  lemma {:induction false} FirstIsServed(states: seq<System>, events: seq<Event>, t: Thread)
    requires Run(states, events) && Inv(states[0]) && WaitsInFirst(states, t)
    ensures Handovers(states) + FirstBudget(states[|events|].gate, t) <= FirstBudget(states[0].gate, t)
    ensures Inv(states[|events|]) && 0 <= FirstBudget(states[|events|].gate, t)
    decreases |events|
  {
    LastIsSafe(states, events);
    if |events| > 0 {
      var n := |events| - 1;
      RunCut(states, events);
      FirstIsServed(states[..|events|], events[..n], t);
      NextBudget(states[n], events[n], states[n + 1], t);
    }
  }

  /** A waiter leaves its queue only by getting the gate or by its own cancellation. */
  lemma {:induction false} LeavesServedOrCancelled(s: System, e: Event, s': System, t: Thread)
    requires Inv(s) && Next(s, e, s') && Queued(s.gate, t)
    ensures Queued(s'.gate, t) || s'.gate.owner == Some(t) || e == Cancel(t)
    ensures (t in s'.gate.first ==> t in s.gate.first) && (t in s'.gate.rest ==> t in s.gate.rest)
  {
    match e
    case Acquire(u, priority) =>
      AppendIfNew(s.gate.first, u);
      AppendIfNew(s.gate.rest, u);
    case Wake(u) =>
    case Cancel(u) =>
      RemovedIs(s.gate.first, u);
      RemovedIs(s.gate.rest, u);
      HandedOk(s.gate.(depth := 1));
    case Release(u) =>
      HandedOk(s.gate);
  }

  predicate Before(q: seq<Thread>, a: Thread, b: Thread) {
    a in q && b in q && Position(q, a) < Position(q, b)
  }

  /** Each queue is first come, first served: who waits behind `a` stays behind `a`. */
  lemma {:induction false} QueuesAreFifo(s: System, e: Event, s': System, a: Thread, b: Thread)
    requires Inv(s) && Next(s, e, s')
    ensures Before(s.gate.rest, a, b) && a in s'.gate.rest ==>
      s'.gate.owner != Some(b) && (b in s'.gate.rest ==> Before(s'.gate.rest, a, b))
    ensures Before(s.gate.first, a, b) && a in s'.gate.first ==>
      s'.gate.owner != Some(b) && (b in s'.gate.first ==> Before(s'.gate.first, a, b))
  {
    if Before(s.gate.rest, a, b) || Before(s.gate.first, a, b) {
      match e
      case Acquire(u, priority) =>
        AppendFifo(s.gate.rest, u, a, b);
        AppendFifo(s.gate.first, u, a, b);
      case Wake(u) =>
      case Cancel(u) =>
        if Queued(s.gate, u) {
          RemoveFifo(s.gate.rest, u, a, b);
          RemoveFifo(s.gate.first, u, a, b);
        } else {
          HandedFifo(s.gate.(depth := 1), a, b);
        }
      case Release(u) =>
        if s.gate.depth == 1 {
          HandedFifo(s.gate, a, b);
        }
    }
  }

  lemma {:induction false} AppendFifo(q: seq<Thread>, u: Thread, a: Thread, b: Thread)
    ensures Before(q, a, b) ==> Before(q + [u], a, b)
  {
    if Before(q, a, b) {
      PositionAppend(q, a, u);
      PositionAppend(q, b, u);
    }
  }

  lemma {:induction false} RemoveFifo(q: seq<Thread>, u: Thread, a: Thread, b: Thread)
    requires Distinct(q)
    ensures u !in q ==> Removed(q, u) == q
    ensures Before(q, a, b) && a in Removed(q, u) && b in Removed(q, u) ==> Before(Removed(q, u), a, b)
  {
    hide Removed, Position;
    NotThere(q, u);
    RemovedIs(q, u);
    if Before(q, a, b) && a in Removed(q, u) && b in Removed(q, u) {
      PositionRemoved(q, a, u);
      PositionRemoved(q, b, u);
    }
  }

  lemma {:induction false} NotThere(q: seq<Thread>, u: Thread)
    ensures u !in q ==> Removed(q, u) == q
  {
    if q != [] && u !in q {
      NotThere(q[1..], u);
    }
  }

  lemma {:induction false} HandedFifo(g: State, a: Thread, b: Thread)
    requires GateOk(g.(depth := 1)) && g.owner.Some?
    ensures var g' := Handed(g);
      && (Before(g.rest, a, b) && a in g'.rest ==>
            g'.owner != Some(b) && (b in g'.rest ==> Before(g'.rest, a, b)))
      && (Before(g.first, a, b) && a in g'.first ==>
            g'.owner != Some(b) && (b in g'.first ==> Before(g'.first, a, b)))
  {
  }
}
