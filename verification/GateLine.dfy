/**
 The gate of monitor_app/db/gate.py as its callers see it: who waits, in the order they
 asked, and with which flag they asked.  Nothing here is read from the queues of the gate.
 */
module GateLine {
  import opened Options
  import opened Gate
  import opened GateRuns

  /** A thread that waits, and what it asked for. */
  datatype Ask = Ask(t: Thread, priority: bool)

  function Without(line: seq<Ask>, t: Thread): seq<Ask> {
    if line == [] then []
    else if line[0].t == t then Without(line[1..], t)
    else [line[0]] + Without(line[1..], t)
  }

  /**
   Who asks and is not let in joins the line at its end; who owns the gate or gives up
   leaves it.
   */
  function Moved(line: seq<Ask>, e: Event, s': System): seq<Ask> {
    var joined := if e.Acquire? && e.t in s'.waiting then line + [Ask(e.t, e.priority)] else line;
    var left := if e.Cancel? then Without(joined, e.t) else joined;
    if s'.gate.owner.Some? then Without(left, s'.gate.owner.value) else left
  }

  /** The line of the waiting threads after `i` events. */
  function Line(states: seq<System>, events: seq<Event>, i: nat): seq<Ask>
    requires i <= |events| < |states|
  {
    if i == 0 then [] else Moved(Line(states, events, i - 1), events[i - 1], states[i])
  }

  predicate SomeoneAsks(line: seq<Ask>, priority: bool) {
    exists i :: 0 <= i < |line| && line[i].priority == priority
  }

  /**
   How many hand-overs in a row have gone to threads that asked with priority while one that
   asked without it kept waiting.
   */
  function Overtaking(states: seq<System>, events: seq<Event>, i: nat): nat
    requires i <= |events| < |states|
  {
    if i == 0 then 0
    else
      var s, s' := states[i - 1], states[i];
      if Handover(s.gate, s'.gate) then
        if Ask(s'.gate.owner.value, true) in Line(states, events, i - 1) && SomeoneAsks(Line(states, events, i), false)
        then Overtaking(states, events, i - 1) + 1
        else 0
      else if s'.gate.owner.None? then 0
      else Overtaking(states, events, i - 1)
  }

  /** Those in a line who asked in one way. */
  function Asking(line: seq<Ask>, priority: bool): seq<Thread> {
    if line == [] then []
    else (if line[0].priority == priority then [line[0].t] else []) + Asking(line[1..], priority)
  }

  lemma {:induction false} AskingJoined(line: seq<Ask>, a: Ask, priority: bool)
    ensures Asking(line + [a], priority)
         == Asking(line, priority) + if a.priority == priority then [a.t] else []
  {
    if line == [] {
      assert line + [a] == [a] && [a][1..] == [];
    } else {
      var joined := line + [a];
      assert joined[0] == line[0] && joined[1..] == line[1..] + [a];
      AskingJoined(line[1..], a, priority);
      Associative(if line[0].priority == priority then [line[0].t] else [], Asking(line[1..], priority),
                  if a.priority == priority then [a.t] else []);
    }
  }

  lemma {:induction false} AskingWithout(line: seq<Ask>, t: Thread, priority: bool)
    requires Distinct(Asking(line, priority))
    ensures Asking(Without(line, t), priority) == Removed(Asking(line, priority), t)
  {
    if line != [] {
      var q, more := Asking(line, priority), Asking(line[1..], priority);
      assert q == (if line[0].priority == priority then [line[0].t] else []) + more;
      assert line[0].priority != priority ==> q == more;
      if line[0].priority == priority {
        assert q[1..] == more;
        HeadGone(q);
        if line[0].t == t {
          NotThere(more, t);
        }
      }
      AskingWithout(line[1..], t, priority);
      if line[0].t != t {
        assert ([line[0]] + Without(line[1..], t))[1..] == Without(line[1..], t);
      }
    }
  }

  lemma {:induction false} AskingHas(line: seq<Ask>, t: Thread, priority: bool)
    ensures t in Asking(line, priority) <==> Ask(t, priority) in line
  {
    if line != [] {
      AskingHas(line[1..], t, priority);
      assert line == [line[0]] + line[1..];
    }
  }

  lemma {:induction false} AskingSomeone(line: seq<Ask>, priority: bool)
    ensures Asking(line, priority) != [] <==> SomeoneAsks(line, priority)
  {
    if SomeoneAsks(line, priority) {
      var i :| 0 <= i < |line| && line[i].priority == priority;
      AskingHas(line, line[i].t, priority);
      assert line[i] == Ask(line[i].t, priority);
    }
    if Asking(line, priority) != [] {
      AskingHas(line, Asking(line, priority)[0], priority);
    }
  }

  /** The queues of the gate are its line, sorted by what was asked for. */
  ghost predicate QueuesAre(g: State, line: seq<Ask>) {
    g.first == Asking(line, true) && g.rest == Asking(line, false)
  }

  lemma {:induction false} QueuesWithout(g: State, line: seq<Ask>, t: Thread)
    requires QueuesAre(g, line) && Distinct(g.first) && Distinct(g.rest)
    ensures Asking(Without(line, t), true) == Removed(g.first, t)
    ensures Asking(Without(line, t), false) == Removed(g.rest, t)
  {
    AskingWithout(line, t, true);
    AskingWithout(line, t, false);
  }

  lemma {:induction false} JoinedLine(s: System, line: seq<Ask>, t: Thread, priority: bool, s': System)
    requires Inv(s) && Inv(s') && Next(s, Acquire(t, priority), s') && QueuesAre(s.gate, line)
    ensures QueuesAre(s'.gate, Moved(line, Acquire(t, priority), s'))
  {
    hide Asking, Without;
    var joined := if t in s'.waiting then line + [Ask(t, priority)] else line;
    AskingJoined(line, Ask(t, priority), true);
    AskingJoined(line, Ask(t, priority), false);
    assert QueuesAre(s'.gate, joined);
    OwnerNotInLine(s'.gate, joined);
  }

  /** Taking the owner out of the line changes nothing when it is not queued. */
  lemma {:induction false} OwnerNotInLine(g: State, line: seq<Ask>)
    requires GateOk(g) && QueuesAre(g, line)
    ensures g.owner.Some? ==> QueuesAre(g, Without(line, g.owner.value))
  {
    if g.owner.Some? {
      hide Asking, Without, Removed;
      QueuesWithout(g, line, g.owner.value);
      NotThere(g.first, g.owner.value);
      NotThere(g.rest, g.owner.value);
    }
  }

  lemma {:induction false} HandedLine(g: State, line: seq<Ask>)
    requires GateOk(g.(depth := 1)) && g.owner.Some? && QueuesAre(g, line)
    ensures var g' := Handed(g);
      QueuesAre(g', if g'.owner.Some? then Without(line, g'.owner.value) else line)
  {
    hide Asking, Without;
    var g' := Handed(g);
    if g'.owner.Some? {
      var t := g'.owner.value;
      QueuesWithout(g, line, t);
      if PicksFirst(g) {
        assert t !in g.rest;
        NotThere(g.rest, t);
      } else {
        NotThere(g.first, t);
      }
    }
  }

  lemma {:induction false} CancelledLine(s: System, line: seq<Ask>, t: Thread, s': System)
    requires Inv(s) && Inv(s') && Next(s, Cancel(t), s') && QueuesAre(s.gate, line)
    ensures QueuesAre(s'.gate, Moved(line, Cancel(t), s'))
  {
    hide Asking, Without;
    var left := Without(line, t);
    QueuesWithout(s.gate, line, t);
    if t !in s.gate.first {
      NotThere(s.gate.first, t);
    }
    if t !in s.gate.rest {
      NotThere(s.gate.rest, t);
    }
    if Queued(s.gate, t) {
      assert QueuesAre(s'.gate, left);
      OwnerNotInLine(s'.gate, left);
    } else {
      HandedLine(s.gate.(depth := 1), left);
    }
  }

  lemma {:induction false} ReleasedLine(s: System, line: seq<Ask>, t: Thread, s': System)
    requires Inv(s) && Inv(s') && Next(s, Release(t), s') && QueuesAre(s.gate, line)
    ensures QueuesAre(s'.gate, Moved(line, Release(t), s'))
  {
    hide Asking, Without;
    if s.gate.owner == Some(t) && s.gate.depth == 1 {
      HandedLine(s.gate, line);
    } else {
      OwnerNotInLine(s'.gate, line);
    }
  }

  lemma {:induction false} LineMoves(s: System, line: seq<Ask>, e: Event, s': System)
    requires Inv(s) && Next(s, e, s') && QueuesAre(s.gate, line)
    ensures QueuesAre(s'.gate, Moved(line, e, s'))
  {
    NextKeeps(s, e, s');
    match e
    case Acquire(t, priority) => JoinedLine(s, line, t, priority, s');
    case Wake(t) => OwnerNotInLine(s'.gate, line);
    case Cancel(t) => CancelledLine(s, line, t, s');
    case Release(t) => ReleasedLine(s, line, t, s');
  }

  lemma {:induction false} LineIsQueued(states: seq<System>, events: seq<Event>, i: nat)
    requires Run(states, events) && states[0] == IDLE && i <= |events|
    ensures QueuesAre(states[i].gate, Line(states, events, i))
  {
    if i > 0 {
      hide QueuesAre, Moved, Next;
      LineIsQueued(states, events, i - 1);
      EveryStateIsSafe(states, events, i - 1);
      LineMoves(states[i - 1], Line(states, events, i - 1), events[i - 1], states[i]);
    }
  }

  // ------------------------------------------------------------------ who gets the gate

  lemma {:induction false} LineHas(states: seq<System>, events: seq<Event>, i: nat, t: Thread, priority: bool)
    requires Run(states, events) && states[0] == IDLE && i <= |events|
    ensures Ask(t, priority) in Line(states, events, i)
      <==> t in if priority then states[i].gate.first else states[i].gate.rest
  {
    hide Asking, Line;
    LineIsQueued(states, events, i);
    AskingHas(Line(states, events, i), t, priority);
  }

  /** Who waits is in the line, and nobody else is. */
  lemma {:induction false} LineIsWaiting(states: seq<System>, events: seq<Event>, i: nat, t: Thread)
    requires Run(states, events) && states[0] == IDLE && i <= |events|
    ensures Ask(t, true) in Line(states, events, i) || Ask(t, false) in Line(states, events, i)
      <==> t in states[i].waiting && states[i].gate.owner != Some(t)
  {
    hide Line;
    EveryStateIsSafe(states, events, i);
    LineHas(states, events, i, t, true);
    LineHas(states, events, i, t, false);
  }

  /** A step that hands the gate over, or opens it, is the hand-over of a leaving owner. */
  lemma {:induction false} OwnerLeaves(s: System, e: Event, s': System)
    requires Inv(s) && Next(s, e, s') && s.gate.owner.Some? && s'.gate.owner != s.gate.owner
    ensures s'.gate == Handed(s.gate)
    ensures forall t :: t in s.waiting && s.gate.owner != Some(t) ==> Queued(s.gate, t)
  {
    if e.Cancel? {
      assert s.gate.owner == Some(e.t) ==> Depth(s, e.t) == 0;
    }
  }

  lemma {:induction false} StreakMoves(s: System, e: Event, s': System)
    requires Inv(s) && Next(s, e, s') && s'.gate.owner == s.gate.owner
    ensures s'.gate.streak == s.gate.streak
  {
    NextKeeps(s, e, s');
    if e.Cancel? && !Queued(s.gate, e.t) {
      HandedOk(s.gate.(depth := 1));
    }
    if e.Release? && s.gate.owner == Some(e.t) && s.gate.depth == 1 {
      HandedOk(s.gate);
    }
  }

  /** What the gate counts as its streak is the number of those hand-overs. */
  lemma {:induction false} StreakIsOvertaking(states: seq<System>, events: seq<Event>, i: nat)
    requires Run(states, events) && states[0] == IDLE && i <= |events|
    ensures states[i].gate.streak == Overtaking(states, events, i)
  {
    if i > 0 {
      hide Next, Inv, Line, SomeoneAsks, Asking;
      var s, e, s' := states[i - 1], events[i - 1], states[i];
      StreakIsOvertaking(states, events, i - 1);
      EveryStateIsSafe(states, events, i - 1);
      if s.gate.owner == s'.gate.owner {
        StreakMoves(s, e, s');
        OpenCountsNothing(states, events, i - 1);
      } else if s.gate.owner.None? {
        OpenCountsNothing(states, events, i - 1);
        EntersOpen(s, e, s');
      } else {
        OwnerLeaves(s, e, s');
        LineIsQueued(states, events, i);
        AskingSomeone(Line(states, events, i), false);
        if s'.gate.owner.Some? {
          LineHas(states, events, i - 1, s'.gate.owner.value, true);
          PickedIsFirst(s);
        }
      }
    }
  }

  lemma {:induction false} OpenCountsNothing(states: seq<System>, events: seq<Event>, i: nat)
    requires Run(states, events) && i <= |events| && Inv(states[i])
    ensures states[i].gate.owner.None? ==> states[i].gate.streak == 0
  {
  }

  lemma {:induction false} EntersOpen(s: System, e: Event, s': System)
    requires Inv(s) && Next(s, e, s') && s.gate.owner.None?
    ensures s'.gate.streak == 0
  {
  }

  lemma {:induction false} PickedIsFirst(s: System)
    requires Inv(s) && s.gate.owner.Some? && Handed(s.gate).owner.Some?
    ensures Handed(s.gate).owner.value in s.gate.first <==> PicksFirst(s.gate)
  {
    var g := s.gate;
    assert GateOk(g);
    if PicksFirst(g) {
      assert g.first[0] in g.first;
    } else {
      var t := g.rest[0];
      assert t in g.rest && Handed(g).owner == Some(t);
      assert t in g.first ==> t !in g.rest;
    }
  }

  /** Nobody who asked the same way asked earlier. */
  predicate EarliestOfItsKind(line: seq<Ask>, k: nat)
    requires k < |line|
  {
    forall j :: 0 <= j < k ==> line[j].priority != line[k].priority
  }

  /**
   Who is next: the earliest of those who asked with priority, but of the others when three
   hand-overs in a row have overtaken them.
   */
  predicate NextInTurn(line: seq<Ask>, overtaking: nat, k: nat) {
    && k < |line| && EarliestOfItsKind(line, k)
    && (line[k].priority <==> SomeoneAsks(line, true) && (overtaking < 3 || !SomeoneAsks(line, false)))
  }

  /** The first of those who asked one way. */
  lemma {:induction false} FirstAsking(line: seq<Ask>, priority: bool) returns (k: nat)
    requires Asking(line, priority) != []
    ensures k < |line| && line[k] == Ask(Asking(line, priority)[0], priority) && EarliestOfItsKind(line, k)
  {
    if line[0].priority == priority {
      k := 0;
    } else {
      var j := FirstAsking(line[1..], priority);
      k := j + 1;
      forall i | 0 <= i < k ensures line[i].priority != line[k].priority {
        assert i > 0 ==> line[i] == line[1..][i - 1];
      }
    }
  }

  /**
   Main result: in every run, each hand-over goes to the waiting thread whose turn it is by
   what the threads asked for, and when they asked; the gate opens only if nobody waits.
   */
  lemma {:induction false} ServedInTurn(states: seq<System>, events: seq<Event>, i: nat)
    requires Run(states, events) && states[0] == IDLE && i < |events|
    requires states[i].gate.owner.Some? && states[i + 1].gate.owner != states[i].gate.owner
    ensures var line, owner := Line(states, events, i), states[i + 1].gate.owner;
      if owner.None? then line == []
      else exists k: nat :: NextInTurn(line, Overtaking(states, events, i), k) && line[k].t == owner.value
  {
    hide Line, Overtaking, Asking, SomeoneAsks, Next, Inv, EarliestOfItsKind;
    var line, g := Line(states, events, i), states[i].gate;
    EveryStateIsSafe(states, events, i);
    OwnerLeaves(states[i], events[i], states[i + 1]);
    LineIsQueued(states, events, i);
    StreakIsOvertaking(states, events, i);
    AskingSomeone(line, true);
    AskingSomeone(line, false);
    if states[i + 1].gate.owner.Some? {
      var k := FirstAsking(line, PicksFirst(g));
      assert NextInTurn(line, Overtaking(states, events, i), k);
    } else {
      SomeoneOrNobody(line);
    }
  }

  lemma {:induction false} SomeoneOrNobody(line: seq<Ask>)
    ensures line == [] || SomeoneAsks(line, true) || SomeoneAsks(line, false)
  {
    assert line != [] ==> line[0].priority == true || line[0].priority == false;
  }

  // --------------------------------------------------------------------- bounded waiting

  /** How many of those who asked the same way asked earlier. */
  function Ahead(line: seq<Ask>, a: Ask): nat
    requires a in line
  {
    if line[0] == a then 0 else Ahead(line[1..], a) + if line[0].priority == a.priority then 1 else 0
  }

  lemma {:induction false} AheadIsPosition(line: seq<Ask>, a: Ask)
    requires a in line
    ensures a.t in Asking(line, a.priority) && Ahead(line, a) == Position(Asking(line, a.priority), a.t)
  {
    AskingHas(line, a.t, a.priority);
    if line[0] != a {
      AheadIsPosition(line[1..], a);
      var q, more := Asking(line, a.priority), Asking(line[1..], a.priority);
      if line[0].priority == a.priority {
        assert q == [line[0].t] + more && q[1..] == more;
      } else {
        assert q == [] + more && [] + more == more;
      }
    }
  }

  /** The gate changed hands this often between two moments of a run. */
  function HandoversBetween(states: seq<System>, i: nat, j: nat): nat
    requires i <= j < |states|
  {
    if i == j then 0
    else HandoversBetween(states, i, j - 1) + if Handover(states[j - 1].gate, states[j].gate) then 1 else 0
  }

  /** What a waiting thread may still have to let pass, by its flag. */
  function MayPass(ahead: nat, overtaking: int, priority: bool): int {
    if priority then ahead + (ahead + overtaking) / 3 else 4 * ahead + 3 - overtaking
  }

  /**
   Main result: while a thread waits, the gate changes hands, counting from any moment, at
   most a number of times that depends only on its flag, on how many with the same flag
   asked earlier, and on the hand-overs that have overtaken someone.
   */
  lemma {:induction false} ServedSoon(states: seq<System>, events: seq<Event>, a: Ask, i: nat, j: nat)
    requires Run(states, events) && states[0] == IDLE && i <= j <= |events|
    requires forall n :: i <= n <= j ==> a in Line(states, events, n)
    ensures HandoversBetween(states, i, j)
      + MayPass(Ahead(Line(states, events, j), a), Overtaking(states, events, j), a.priority)
      <= MayPass(Ahead(Line(states, events, i), a), Overtaking(states, events, i), a.priority)
    ensures MayPass(Ahead(Line(states, events, j), a), Overtaking(states, events, j), a.priority) >= 0
    decreases j
  {
    hide Line, Overtaking, Next, Inv, Ahead, Asking;
    Budget(states, events, a, i);
    Budget(states, events, a, j);
    if i < j {
      ServedSoon(states, events, a, i, j - 1);
      Budget(states, events, a, j - 1);
      EveryStateIsSafe(states, events, j - 1);
      NextBudget(states[j - 1], events[j - 1], states[j], a.t);
    }
  }

  lemma {:induction false} Budget(states: seq<System>, events: seq<Event>, a: Ask, i: nat)
    requires Run(states, events) && states[0] == IDLE && i <= |events| && a in Line(states, events, i)
    ensures a.t in if a.priority then states[i].gate.first else states[i].gate.rest
    ensures MayPass(Ahead(Line(states, events, i), a), Overtaking(states, events, i), a.priority)
      == if a.priority then FirstBudget(states[i].gate, a.t) else RestBudget(states[i].gate, a.t)
    ensures MayPass(Ahead(Line(states, events, i), a), Overtaking(states, events, i), a.priority) >= 0
  {
    hide Line, Overtaking, Next, Ahead, Asking, Position;
    EveryStateIsSafe(states, events, i);
    LineIsQueued(states, events, i);
    StreakIsOvertaking(states, events, i);
    AheadIsPosition(Line(states, events, i), a);
  }
}
