/**
 The re-entrant gate that hands itself to the next waiter (monitor_app/db/gate.py): each
 section under its mutex, as a method on `FetchGate` and as a function on its state.

 A leaving owner picks the next one itself, so nobody can slip in between.  Two queues are
 served by a bounded priority: after `PRIORITY_STREAK` hand-offs in a row to the first
 queue, the other one gets a turn.  `FetchAll` reads a result in passes through the gate.
 `GateRuns` lets threads enter, wait, leave and give up in any order.
 */
module Gate {
  import opened Options

  /** `threading.get_ident()`. */
  type Thread = int

  const PRIORITY_STREAK := 3

  datatype State = State(owner: Option<Thread>, depth: nat, first: seq<Thread>, rest: seq<Thread>, streak: nat)

  const OPEN := State(None, 0, [], [], 0)

  function Removed(q: seq<Thread>, t: Thread): (r: seq<Thread>)
  {
    if q == [] then []
    else if q[0] == t then q[1..]
    else [q[0]] + Removed(q[1..], t)
  }

  /** The priority queue goes first, unless it has overtaken the other one too often. */
  predicate PicksFirst(s: State) {
    s.first != [] && !(s.rest != [] && s.streak >= PRIORITY_STREAK)
  }

  /** The owner leaves for good: the gate goes to the next waiter or opens. */
  function Handed(s: State): State {
    if PicksFirst(s) then
      s.(owner := Some(s.first[0]), depth := 1, first := s.first[1..],
         streak := if s.rest != [] then s.streak + 1 else 0)
    else if s.rest != [] then
      s.(owner := Some(s.rest[0]), depth := 1, rest := s.rest[1..], streak := 0)
    else
      s.(owner := None, depth := 0, streak := 0)
  }

  /** `_release_locked`. */
  function Released(s: State): State
    requires s.depth > 0
  {
    if s.depth > 1 then s.(depth := s.depth - 1) else Handed(s)
  }

  /** The first section of `acquire`; the thread waits exactly if it is queued. */
  function Entered(s: State, me: Thread, priority: bool): State {
    if s.owner == Some(me) then s.(depth := s.depth + 1)
    else if s.owner.None? then s.(owner := Some(me), depth := 1)
    else if priority then s.(first := s.first + [me])
    else s.(rest := s.rest + [me])
  }

  predicate Queued(s: State, t: Thread) {
    t in s.first || t in s.rest
  }

  /** The section that a cancelled wait runs. */
  function Cancelled(s: State, me: Thread): State {
    if me in s.first then s.(first := Removed(s.first, me))
    else if me in s.rest then s.(rest := Removed(s.rest, me))
    else Handed(s.(depth := 1))
  }

  class FetchGate {
    var owner: Option<Thread>
    var depth: nat
    var first: seq<Thread>
    var rest: seq<Thread>
    var streak: nat

    ghost function Value(): State
      reads this
    {
      State(owner, depth, first, rest, streak)
    }

    constructor ()
      ensures Value() == OPEN
    {
      owner, depth, first, rest, streak := None, 0, [], [], 0;
    }

    /** `acquire` up to the point where it may have to wait. */
    method Acquire(me: Thread, priority: bool) returns (waits: bool)
      modifies this
      ensures Value() == Entered(old(Value()), me, priority)
      ensures waits == (old(owner) != Some(me) && old(owner).Some?)
      ensures waits && priority ==> first == old(first) + [me] && rest == old(rest)
      ensures waits && !priority ==> rest == old(rest) + [me] && first == old(first)
      ensures waits ==> owner == old(owner) && depth == old(depth) && streak == old(streak)
      ensures !waits ==>
        && owner == Some(me) && depth == (if old(owner) == Some(me) then old(depth) + 1 else 1)
        && first == old(first) && rest == old(rest)
    {
      if owner == Some(me) {
        depth := depth + 1;
        return false;
      }
      if owner.None? {
        owner, depth := Some(me), 1;
        return false;
      }
      if priority {
        first := first + [me];
      } else {
        rest := rest + [me];
      }
      return true;
    }

    /** The wait of `me` ended with an exception. */
    method CancelWait(me: Thread)
      modifies this
      ensures Value() == Cancelled(old(Value()), me)
    {
      if me in first {
        first := Remove(first, me);
      } else if me in rest {
        rest := Remove(rest, me);
      } else {
        depth := 1;
        ReleaseLocked();
      }
    }

    /** `release`; false stands for the RuntimeError of a thread that is not inside. */
    method Release(me: Thread) returns (ok: bool)
      requires owner.Some? ==> depth > 0
      modifies this
      ensures ok == (old(owner) == Some(me))
      ensures Value() == if ok then Released(old(Value())) else old(Value())
    {
      if owner != Some(me) {
        return false;
      }
      ReleaseLocked();
      return true;
    }

    method ReleaseLocked()
      requires depth > 0
      modifies this
      ensures Value() == Released(old(Value()))
    {
      depth := depth - 1;
      if depth > 0 {
        return;
      }
      if first != [] && !(rest != [] && streak >= PRIORITY_STREAK) {
        streak := if rest != [] then streak + 1 else 0;
        owner, first := Some(first[0]), first[1..];
      } else if rest != [] {
        streak := 0;
        owner, rest := Some(rest[0]), rest[1..];
      } else {
        owner, streak := None, 0;
        return;
      }
      depth := 1;
    }
  }

  /** `deque.remove`. */
  method Remove(q: seq<Thread>, t: Thread) returns (r: seq<Thread>)
    ensures r == Removed(q, t)
  {
    hide Removed;
    RemovedFrom(q, 0, t);
    var i := 0;
    while i < |q| && q[i] != t
      invariant 0 <= i <= |q| && Removed(q, t) == q[..i] + Removed(q[i..], t)
    {
      RemovedFrom(q, i, t);
      i := i + 1;
    }
    RemovedFrom(q, i, t);
    return if i < |q| then q[..i] + q[i + 1..] else q;
  }

  /** What is known about `Removed` when no earlier element is `t`. */
  lemma {:induction false} RemovedFrom(q: seq<Thread>, i: nat, t: Thread)
    requires i <= |q|
    ensures i == 0 ==> Removed(q, t) == q[..i] + Removed(q[i..], t)
    ensures i < |q| && q[i] == t ==> Removed(q[i..], t) == q[i + 1..]
    ensures i < |q| && q[i] != t ==> q[..i] + Removed(q[i..], t) == q[..i + 1] + Removed(q[i + 1..], t)
    ensures i == |q| ==> q[..i] + Removed(q[i..], t) == q
  {
    if i < |q| {
      assert q[i..][1..] == q[i + 1..] && q[..i + 1] == q[..i] + [q[i]];
    }
    assert i == 0 ==> q[i..] == q;
  }

  // -------------------------------------------------------------------- fetch_all

  /** The rows a cursor has yet to return. */
  class Result<Row> {
    var left: seq<Row>
    var closed: bool

    constructor (rows: seq<Row>)
      ensures left == rows && !closed
    {
      left, closed := rows, false;
    }

    method FetchMany(n: nat) returns (part: seq<Row>)
      modifies this
      ensures part + left == old(left) && closed == old(closed)
      ensures |part| == if |old(left)| < n then |old(left)| else n
    {
      var k := if |left| < n then |left| else n;
      part, left := left[..k], left[k..];
    }
  }

  /**
   `fetch_all` behind a gate.  `passes` is the priority it asked for each time it took the
   gate: it gets through with one pass per chunk and one for the rest, and only the first
   has priority.
   */
  method FetchAll<Row>(result: Result<Row>, chunk: nat) returns (rows: seq<Row>, passes: seq<bool>)
    requires chunk > 0
    modifies result
    ensures rows == old(result.left) && result.left == [] && result.closed
    ensures |passes| == |rows| / chunk + 1
    ensures forall i :: 0 <= i < |passes| ==> passes[i] == (i == 0)
  {
    rows, passes := [], [];
    var priority := true;
    ghost var done := 0;
    while true
      invariant rows + result.left == old(result.left) && |rows| == done * chunk && |passes| == done
      invariant priority == (done == 0)
      invariant forall i :: 0 <= i < |passes| ==> passes[i] == (i == 0)
      decreases |result.left|
    {
      passes := passes + [priority];
      var part := result.FetchMany(chunk);
      priority := false;
      rows := rows + part;
      if |part| < chunk {
        Quotient(|rows|, chunk, done, |part|);
        result.closed := true;
        return;
      }
      done := done + 1;
    }
  }

  lemma {:induction false} Quotient(n: nat, d: nat, q: nat, r: nat)
    requires n == q * d + r && r < d
    ensures n / d == q
  {
    var k := n / d;
    assert k * d <= n < (k + 1) * d;
    assert k < q ==> (k + 1) * d <= q * d;
    assert k > q ==> (q + 1) * d <= k * d;
  }
}
