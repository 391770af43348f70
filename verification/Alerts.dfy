/**
 Edge detection over alert rules with memoised evaluation
 (monitor_app/services/alert_service.py).  Each method body runs under the engine's lock.

 A rule that begins to be violated fires once, and one that stops being violated recovers
 once.  The engine records the digest and the version of the rows it evaluated last, for
 each view, and skips rows with the same digest or of an older version.  The fields are the
 ones of the source; `State` is their value, and the functions on it say what a method does.
 `AlertRuns` follows an engine through any number of calls.
 */
module Alerts {
  import opened Options

  datatype Op = Gt | Ge | Lt | Le | Eq | Ne

  /** `text` is how the threshold is written in the key. */
  datatype Rule = Rule(view: string, column: string, op: Op, threshold: real, text: string)

  /** The number each cell of a row converts to; null and other cells are not in the map. */
  type Data = seq<map<string, real>>

  type Digest = int

  datatype Alert = Alert(view: string, column: string, count: nat)

  /** What is sent; `Silenced` marks an alert that `reconfigure` dropped without a word. */
  datatype Note = Fire(key: string) | Recover(key: string) | Silenced(key: string)

  datatype Evaluated = Evaluated(digest: Digest, version: Option<int>)

  datatype State = State(rules: seq<Rule>, active: map<string, Alert>, evaluated: map<string, Evaluated>,
                         notes: seq<Note>)

  function OpText(op: Op): string {
    match op case Gt => ">" case Ge => ">=" case Lt => "<" case Le => "<=" case Eq => "==" case Ne => "!="
  }

  /** `_rule_key`. */
  function RuleKey(r: Rule): string {
    r.view + ":" + r.column + ":" + OpText(r.op) + ":" + r.text
  }

  predicate Compare(op: Op, a: real, b: real) {
    match op case Gt => a > b case Ge => a >= b case Lt => a < b case Le => a <= b case Eq => a == b case Ne => a != b
  }

  predicate Violates(r: Rule, row: map<string, real>) {
    r.column in row && Compare(r.op, row[r.column], r.threshold)
  }

  /** How many rows violate a rule. */
  function Violations(r: Rule, rows: Data): nat {
    if rows == [] then 0
    else Violations(r, rows[..|rows| - 1]) + if Violates(r, rows[|rows| - 1]) then 1 else 0
  }

  /** What an operator says of two numbers, by which of them is the larger one. */
  predicate Related(op: Op, a: real, b: real) {
    if a == b then op.Ge? || op.Le? || op.Eq?
    else if a > b then op.Gt? || op.Ge? || op.Ne?
    else op.Lt? || op.Le? || op.Ne?
  }

  /** The places of the rows whose number is on the wrong side of the threshold. */
  function ViolatingRows(r: Rule, rows: Data): set<int> {
    set i | 0 <= i < |rows| && r.column in rows[i] && Related(r.op, rows[i][r.column], r.threshold)
  }

  lemma {:induction false} ViolationsAreRows(r: Rule, rows: Data)
    ensures Violations(r, rows) == |ViolatingRows(r, rows)|
  {
    if rows != [] {
      var last := |rows| - 1;
      ViolationsAreRows(r, rows[..last]);
      var before := ViolatingRows(r, rows[..last]);
      assert ViolatingRows(r, rows) == before + if Violates(r, rows[last]) then {last} else {};
    }
  }

  /** The rules of a view, in the order of the configuration. */
  function RulesOf(rules: seq<Rule>, view: string): seq<Rule> {
    if rules == [] then []
    else
      var before := RulesOf(rules[..|rules| - 1], view);
      if rules[|rules| - 1].view == view then before + [rules[|rules| - 1]] else before
  }

  datatype Round = Round(active: map<string, Alert>, notes: seq<Note>)

  /** One rule: off to on fires, on to off recovers, and nothing else is said. */
  function One(before: Round, r: Rule, rows: Data): Round {
    var key, count := RuleKey(r), Violations(r, rows);
    if count > 0 then
      Round(before.active[key := Alert(r.view, r.column, count)],
            if key in before.active then before.notes else before.notes + [Fire(key)])
    else if key in before.active then Round(before.active - {key}, before.notes + [Recover(key)])
    else before
  }

  /** `_evaluate_locked` and `_send_edges`. */
  function Evaluation(active: map<string, Alert>, rules: seq<Rule>, rows: Data): Round {
    if rules == [] then Round(active, [])
    else One(Evaluation(active, rules[..|rules| - 1], rows), rules[|rules| - 1], rows)
  }

  function AfterEvaluation(s: State, view: string, rows: Data): State {
    var round := Evaluation(s.active, RulesOf(s.rules, view), rows);
    s.(active := round.active, notes := s.notes + round.notes)
  }

  /** `evaluate_view`. */
  function EvaluatedDirectly(s: State, view: string, rows: Data): State {
    AfterEvaluation(s.(evaluated := s.evaluated - {view}), view, rows)
  }

  predicate SameData(s: State, view: string, digest: Digest) {
    view in s.evaluated && s.evaluated[view].digest == digest
  }

  /** Data older than what was evaluated last. */
  predicate Outdated(s: State, view: string, version: Option<int>) {
    && view in s.evaluated && version.Some? && s.evaluated[view].version.Some?
    && version.value < s.evaluated[view].version.value
  }

  /** `evaluate_view_if_changed`. */
  function EvaluatedIfChanged(s: State, view: string, digest: Digest, rows: Data, version: Option<int>): State {
    if SameData(s, view, digest) || Outdated(s, view, version) then s
    else
      var t := AfterEvaluation(s, view, rows);
      t.(evaluated := t.evaluated[view := Evaluated(digest, version)])
  }

  function KeysOf(rules: seq<Rule>): set<string> {
    set r | r in rules :: RuleKey(r)
  }

  /** `reconfigure`; `order` lists the alerts that are dropped. */
  function Reconfigured(s: State, rules: seq<Rule>, order: seq<string>): State {
    State(rules, map key | key in s.active && key in KeysOf(rules) :: s.active[key], map[], s.notes + Silences(order))
  }

  function Silences(keys: seq<string>): seq<Note> {
    if keys == [] then [] else Silences(keys[..|keys| - 1]) + [Silenced(keys[|keys| - 1])]
  }

  lemma {:induction false} SilencesAre(keys: seq<string>)
    ensures |Silences(keys)| == |keys| && forall i :: 0 <= i < |keys| ==> Silences(keys)[i] == Silenced(keys[i])
  {
    if keys != [] {
      SilencesAre(keys[..|keys| - 1]);
    }
  }

  lemma {:induction false} KeysAre(rules: seq<Rule>)
    ensures forall key :: key in KeysOf(rules) <==> exists r :: r in rules && RuleKey(r) == key
  {
    hide RuleKey;
  }

  /** The alerts whose rule is gone, each once. */
  ghost predicate Dropped(s: State, rules: seq<Rule>, order: seq<string>) {
    Distinct(order) && forall key :: key in order <==> key in s.active && key !in KeysOf(rules)
  }

  /** Alerts whose rule is still there stay as they are, the others go silently, and all records go. */
  ghost predicate Continues(s: State, rules: seq<Rule>, order: seq<string>, t: State) {
    && t.rules == rules && t.evaluated == map[]
    && (forall key :: key in t.active <==> key in s.active && exists r :: r in rules && RuleKey(r) == key)
    && (forall key :: key in t.active ==> t.active[key] == s.active[key])
    && |t.notes| == |s.notes| + |order| && t.notes[..|s.notes|] == s.notes
    && (forall i :: 0 <= i < |order| ==> t.notes[|s.notes| + i] == Silenced(order[i]))
  }

  lemma {:induction false} ReconfiguredContinues(s: State, rules: seq<Rule>, order: seq<string>)
    ensures Continues(s, rules, order, Reconfigured(s, rules, order))
  {
    hide RuleKey, KeysOf, Silences;
    SilencesAre(order);
    KeysAre(rules);
  }

  class AlertEngine {
    var rules: seq<Rule>
    var byView: map<string, seq<Rule>>
    var active: map<string, Alert>
    var evaluated: map<string, Evaluated>
    var notes: seq<Note>

    ghost function Value(): State
      reads this
    {
      State(rules, active, evaluated, notes)
    }

    /** The index by view is what the rules say. */
    ghost predicate Valid()
      reads this
    {
      forall view :: (if view in byView then byView[view] else []) == RulesOf(rules, view)
    }

    constructor (rules: seq<Rule>)
      ensures Valid() && Value() == State(rules, map[], map[], [])
    {
      this.rules, active, evaluated, notes := rules, map[], map[], [];
      byView := map[];
      new;
      byView := Index(rules);
    }

    /** `_index`. */
    static method Index(rules: seq<Rule>) returns (byView: map<string, seq<Rule>>)
      ensures forall view :: (if view in byView then byView[view] else []) == RulesOf(rules, view)
    {
      byView := map[];
      for i := 0 to |rules|
        invariant forall view :: (if view in byView then byView[view] else []) == RulesOf(rules[..i], view)
      {
        assert rules[..i + 1][..i] == rules[..i];
        var r := rules[i];
        byView := byView[r.view := (if r.view in byView then byView[r.view] else []) + [r]];
      }
      assert rules[..|rules|] == rules;
    }

    /** `_evaluate_rule`. */
    method EvaluateRule(r: Rule, rows: Data) returns (violations: nat)
      ensures violations == Violations(r, rows)
      ensures violations == |ViolatingRows(r, rows)|
    {
      ViolationsAreRows(r, rows);
      violations := 0;
      for i := 0 to |rows|
        invariant violations == Violations(r, rows[..i])
      {
        assert rows[..i + 1][..i] == rows[..i];
        if r.column in rows[i] && Compare(r.op, rows[i][r.column], r.threshold) {
          violations := violations + 1;
        }
      }
      assert rows[..|rows|] == rows;
    }

    /** `_evaluate_locked` and `_send_edges`. */
    method EvaluateLocked(view: string, rows: Data)
      requires Valid()
      modifies this`active, this`notes
      ensures Valid() && Value() == AfterEvaluation(old(Value()), view, rows)
    {
      hide RulesOf, RuleKey, Violations;
      var own := if view in byView then byView[view] else [];
      var edges: seq<Note> := [];
      for i := 0 to |own|
        invariant Round(active, edges) == Evaluation(old(active), own[..i], rows) && notes == old(notes)
      {
        assert own[..i + 1][..i] == own[..i];
        var key := RuleKey(own[i]);
        var count := EvaluateRule(own[i], rows);
        var wasActive := key in active;
        if count > 0 {
          active := active[key := Alert(own[i].view, own[i].column, count)];
          if !wasActive {
            edges := edges + [Fire(key)];
          }
        } else if wasActive {
          active := active - {key};
          edges := edges + [Recover(key)];
        }
      }
      assert own[..|own|] == own;
      notes := notes + edges;
    }

    /** `evaluate_view`. */
    method EvaluateView(view: string, rows: Data)
      requires Valid()
      modifies this`active, this`notes, this`evaluated
      ensures Valid() && Value() == EvaluatedDirectly(old(Value()), view, rows)
    {
      evaluated := evaluated - {view};
      EvaluateLocked(view, rows);
    }

    /** `evaluate_view_if_changed`. */
    method EvaluateViewIfChanged(view: string, digest: Digest, rows: Data, version: Option<int>) returns (did: bool)
      requires Valid()
      modifies this`active, this`notes, this`evaluated
      ensures Valid() && Value() == EvaluatedIfChanged(old(Value()), view, digest, rows, version)
      ensures did == !(SameData(old(Value()), view, digest) || Outdated(old(Value()), view, version))
      ensures !did <==>
        && view in old(evaluated)
        && var last := old(evaluated)[view];
           || last.digest == digest
           || (version.Some? && last.version.Some? && version.value < last.version.value)
      ensures did ==> evaluated == old(evaluated)[view := Evaluated(digest, version)]
      ensures !did ==> active == old(active) && evaluated == old(evaluated) && notes == old(notes)
    {
      if view in evaluated {
        var last := evaluated[view];
        if last.digest == digest {
          return false;
        }
        if version.Some? && last.version.Some? && version.value < last.version.value {
          return false;
        }
      }
      EvaluateLocked(view, rows);
      evaluated := evaluated[view := Evaluated(digest, version)];
      return true;
    }

    /** `reconfigure`. */
    method Reconfigure(newRules: seq<Rule>) returns (order: seq<string>)
      requires Valid()
      modifies this
      ensures Valid() && Dropped(old(Value()), newRules, order)
        && Value() == Reconfigured(old(Value()), newRules, order)
    {
      hide RulesOf, Silences, KeysOf;
      var keys := KeysOf(newRules);
      var left := active;
      var gone := set key | key in active && key !in keys;
      order := [];
      while gone != {}
        invariant gone <= left.Keys
        invariant left == map key | key in active && (key in keys || key in gone) :: active[key]
        invariant Distinct(order) && forall key :: key in order <==> key in active && key !in keys && key !in gone
        decreases gone
      {
        var key :| key in gone;
        left := left - {key};
        gone := gone - {key};
        order := order + [key];
      }
      var index := Index(newRules);
      rules, byView, active, evaluated := newRules, index, left, map[];
      notes := notes + Silences(order);
    }
  }
}
