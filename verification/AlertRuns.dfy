/**
 Runs of the alert engine (monitor_app/services/alert_service.py): notifications alternate,
 and skipping data that was evaluated already changes nothing.
 */
module AlertRuns {
  import opened Options
  import opened Alerts

  // ------------------------------------------------------------------ alternation

  /** Whether an alert is on after one more note; None if the note is out of turn. */
  function Turn(on: bool, n: Note, key: string): Option<bool> {
    if n.key != key then Some(on)
    else if n.Fire? == on then None
    else Some(!on)
  }

  /** Whether an alert is on after the notes; None as soon as one is out of turn. */
  function Follow(notes: seq<Note>, key: string): Option<bool> {
    if notes == [] then Some(false)
    else
      var on := Follow(notes[..|notes| - 1], key);
      if on.None? then None else Turn(on.value, notes[|notes| - 1], key)
  }

  ghost predicate InTurn(notes: seq<Note>, active: map<string, Alert>) {
    forall key :: Follow(notes, key) == Some(key in active)
  }

  lemma {:induction false} FollowOn(notes: seq<Note>, before: seq<Note>, n: Note, key: string)
    requires Follow(notes + before, key).Some?
    ensures Follow(notes + (before + [n]), key) == Turn(Follow(notes + before, key).value, n, key)
  {
    var all := notes + (before + [n]);
    assert all[..|all| - 1] == notes + before;
  }

  lemma {:induction false} OneInTurn(notes: seq<Note>, before: Round, r: Rule, rows: Data)
    requires InTurn(notes + before.notes, before.active)
    ensures InTurn(notes + One(before, r, rows).notes, One(before, r, rows).active)
  {
    hide Follow, RuleKey, Violations;
    var after := One(before, r, rows);
    forall key ensures Follow(notes + after.notes, key) == Some(key in after.active) {
      FollowOn(notes, before.notes, Fire(RuleKey(r)), key);
      FollowOn(notes, before.notes, Recover(RuleKey(r)), key);
    }
  }

  lemma {:induction false} EvaluationInTurn(notes: seq<Note>, active: map<string, Alert>, rules: seq<Rule>, rows: Data)
    requires InTurn(notes, active)
    ensures InTurn(notes + Evaluation(active, rules, rows).notes, Evaluation(active, rules, rows).active)
  {
    if rules == [] {
      assert notes + [] == notes;
    } else {
      EvaluationInTurn(notes, active, rules[..|rules| - 1], rows);
      OneInTurn(notes, Evaluation(active, rules[..|rules| - 1], rows), rules[|rules| - 1], rows);
    }
  }

  lemma {:induction false} SilencesInTurn(notes: seq<Note>, active: map<string, Alert>, order: seq<string>)
    requires InTurn(notes, active) && Distinct(order) && forall key :: key in order ==> key in active
    ensures InTurn(notes + Silences(order), map key | key in active && key !in order :: active[key])
  {
    if order == [] {
      assert notes + [] == notes;
      assert (map key | key in active && key !in order :: active[key]) == active;
    } else {
      var before, last := order[..|order| - 1], order[|order| - 1];
      assert order == before + [last];
      SilencesInTurn(notes, active, before);
      var left := map key | key in active && key !in before :: active[key];
      var now := map key | key in active && key !in order :: active[key];
      forall key ensures Follow(notes + Silences(order), key) == Some(key in now) {
        assert Follow(notes + Silences(before), key) == Some(key in left);
        FollowOn(notes, Silences(before), Silenced(last), key);
      }
    }
  }

  // -------------------------------------------------------- what an evaluation leaves

  /** Rules with the same key ask the same question. */
  ghost predicate KeysApart(rules: seq<Rule>) {
    forall a, b :: a in rules && b in rules && RuleKey(a) == RuleKey(b) ==>
      a.view == b.view && a.column == b.column && a.op == b.op && a.threshold == b.threshold
  }

  /** The alerts of these rules are what the data says. */
  ghost predicate Settled(active: map<string, Alert>, rules: seq<Rule>, rows: Data) {
    forall r :: r in rules ==>
      if Violations(r, rows) > 0
      then RuleKey(r) in active && active[RuleKey(r)] == Alert(r.view, r.column, Violations(r, rows))
      else RuleKey(r) !in active
  }

  lemma {:induction false} SameQuestion(a: Rule, b: Rule, rows: Data)
    requires a.column == b.column && a.op == b.op && a.threshold == b.threshold
    ensures Violations(a, rows) == Violations(b, rows)
  {
    if rows != [] {
      SameQuestion(a, b, rows[..|rows| - 1]);
    }
  }

  lemma {:induction false} EvaluationSettles(active: map<string, Alert>, rules: seq<Rule>, rows: Data)
    requires KeysApart(rules)
    ensures Settled(Evaluation(active, rules, rows).active, rules, rows)
  {
    hide Violations, RuleKey;
    if rules != [] {
      var before, last := rules[..|rules| - 1], rules[|rules| - 1];
      assert rules == before + [last];
      assert last in rules;
      forall r | r in before ensures r in rules {
      }
      EvaluationSettles(active, before, rows);
      forall r | r in before && RuleKey(r) == RuleKey(last)
        ensures Violations(r, rows) == Violations(last, rows) && r.view == last.view && r.column == last.column
      {
        SameQuestion(r, last, rows);
      }
    }
  }

  /** Keys of other rules stay as they were. */
  lemma {:induction false} OtherKeysStay(active: map<string, Alert>, rules: seq<Rule>, rows: Data, key: string)
    requires key !in KeysOf(rules)
    ensures var after := Evaluation(active, rules, rows).active;
      (key in after <==> key in active) && (key in active ==> after[key] == active[key])
  {
    hide Violations, RuleKey;
    if rules != [] {
      var before, last := rules[..|rules| - 1], rules[|rules| - 1];
      assert last in rules && RuleKey(last) in KeysOf(rules);
      assert forall r :: r in before ==> r in rules;
      OtherKeysStay(active, before, rows, key);
    }
  }

  /** Evaluating data that is settled already says nothing and changes nothing. */
  lemma {:induction false} SettledIsQuiet(active: map<string, Alert>, rules: seq<Rule>, rows: Data)
    requires Settled(active, rules, rows)
    ensures Evaluation(active, rules, rows) == Round(active, [])
  {
    if rules != [] {
      var before, last := rules[..|rules| - 1], rules[|rules| - 1];
      forall r | r in before ensures r in rules {
      }
      SettledIsQuiet(active, before, rows);
      assert last in rules;
    }
  }

  // --------------------------------------------------------------------------- runs

  datatype Event =
    | Direct(view: string, rows: Data)
    | IfChanged(view: string, digest: Digest, rows: Data, version: Option<int>)
    | Reconfigure(rules: seq<Rule>, order: seq<string>)

  ghost predicate Next(s: State, e: Event, t: State) {
    match e
    case Direct(view, rows) => t == EvaluatedDirectly(s, view, rows)
    case IfChanged(view, digest, rows, version) => t == EvaluatedIfChanged(s, view, digest, rows, version)
    case Reconfigure(rules, order) => Dropped(s, rules, order) && t == Reconfigured(s, rules, order)
  }

  /** The same engine without the shortcut: data with the recorded digest is evaluated again. */
  function EvaluatedAlways(s: State, view: string, digest: Digest, rows: Data, version: Option<int>): State {
    if SameData(s, view, digest) then AfterEvaluation(s, view, rows)
    else EvaluatedIfChanged(s, view, digest, rows, version)
  }

  /** `data` holds the rows of each digest: equal digests mean equal rows. */
  ghost predicate Honest(data: map<Digest, Data>, e: Event) {
    e.IfChanged? ==> e.digest in data && data[e.digest] == e.rows
  }

  ghost predicate Inv(data: map<Digest, Data>, s: State) {
    && KeysApart(s.rules) && InTurn(s.notes, s.active)
    && (forall view :: view in s.evaluated ==>
          s.evaluated[view].digest in data && Settled(s.active, RulesOf(s.rules, view), data[s.evaluated[view].digest]))
  }

  lemma {:induction false} OwnRules(rules: seq<Rule>, view: string)
    ensures forall r :: r in RulesOf(rules, view) <==> r in rules && r.view == view
    ensures KeysApart(rules) ==> KeysApart(RulesOf(rules, view))
  {
    if rules != [] {
      assert rules == rules[..|rules| - 1] + [rules[|rules| - 1]];
      OwnRules(rules[..|rules| - 1], view);
    }
  }

  /** Evaluating one view leaves the alerts of the others alone. */
  lemma {:induction false} OthersStay(s: State, view: string, rows: Data, other: string, was: Data)
    requires KeysApart(s.rules) && other != view && Settled(s.active, RulesOf(s.rules, other), was)
    ensures Settled(AfterEvaluation(s, view, rows).active, RulesOf(s.rules, other), was)
  {
    var own := RulesOf(s.rules, view);
    OwnRules(s.rules, view);
    OwnRules(s.rules, other);
    forall r | r in RulesOf(s.rules, other)
      ensures RuleKey(r) !in KeysOf(own)
      ensures var after := Evaluation(s.active, own, rows).active;
        (RuleKey(r) in after <==> RuleKey(r) in s.active)
          && (RuleKey(r) in s.active ==> after[RuleKey(r)] == s.active[RuleKey(r)])
    {
      assert forall q :: q in own ==> q in s.rules && q.view == view;
      OtherKeysStay(s.active, own, rows, RuleKey(r));
    }
  }

  lemma {:induction false} AfterEvaluationKeeps(data: map<Digest, Data>, s: State, view: string, rows: Data)
    requires Inv(data, s)
    ensures var t := AfterEvaluation(s, view, rows);
      && KeysApart(t.rules) && InTurn(t.notes, t.active) && Settled(t.active, RulesOf(t.rules, view), rows)
      && (forall other :: other in s.evaluated && other != view ==>
            Settled(t.active, RulesOf(t.rules, other), data[s.evaluated[other].digest]))
  {
    var own := RulesOf(s.rules, view);
    OwnRules(s.rules, view);
    EvaluationSettles(s.active, own, rows);
    EvaluationInTurn(s.notes, s.active, own, rows);
    forall other | other in s.evaluated && other != view
      ensures Settled(AfterEvaluation(s, view, rows).active, RulesOf(s.rules, other), data[s.evaluated[other].digest])
    {
      OthersStay(s, view, rows, other, data[s.evaluated[other].digest]);
    }
  }

  lemma {:induction false} NextKeeps(data: map<Digest, Data>, s: State, e: Event, t: State)
    requires Inv(data, s) && Next(s, e, t) && Honest(data, e) && (e.Reconfigure? ==> KeysApart(e.rules))
    ensures Inv(data, t)
  {
    hide Evaluation, InTurn, Settled, KeysApart, RulesOf;
    match e
    case Direct(view, rows) => AfterEvaluationKeeps(data, s.(evaluated := s.evaluated - {view}), view, rows);
    case IfChanged(view, digest, rows, version) => AfterEvaluationKeeps(data, s, view, rows);
    case Reconfigure(rules, order) =>
      SilencesInTurn(s.notes, s.active, order);
      assert (map key | key in s.active && key !in order :: s.active[key]) == t.active;
  }

  ghost predicate Run(states: seq<State>, events: seq<Event>) {
    && |states| == |events| + 1
    && states[0].active == map[] && states[0].evaluated == map[] && states[0].notes == []
    && forall i :: 0 <= i < |events| ==> Next(states[i], events[i], states[i + 1])
  }

  lemma {:induction false} EveryState(data: map<Digest, Data>, states: seq<State>, events: seq<Event>, i: nat)
    requires Run(states, events) && i < |states| && KeysApart(states[0].rules)
    requires forall k :: 0 <= k < i ==>
      Honest(data, events[k]) && (events[k].Reconfigure? ==> KeysApart(events[k].rules))
    ensures Inv(data, states[i])
  {
    hide Next, Honest, KeysApart;
    if i > 0 {
      EveryState(data, states, events, i - 1);
      NextKeeps(data, states[i - 1], events[i - 1], states[i]);
    }
  }

  /**
   For every rule key and every run, firing and recovery strictly alternate, beginning with
   firing, between silent resets; and the key is active exactly after a firing.
   */
  lemma {:induction false} NotesAlternate(states: seq<State>, events: seq<Event>, i: nat, key: string)
    requires Run(states, events) && i < |states|
    ensures Follow(states[i].notes, key) == Some(key in states[i].active)
  {
    RunInTurn(states, events, i);
  }

  lemma {:induction false} RunInTurn(states: seq<State>, events: seq<Event>, i: nat)
    requires Run(states, events) && i < |states|
    ensures InTurn(states[i].notes, states[i].active)
  {
    if i > 0 {
      RunInTurn(states, events, i - 1);
      var s, e, t := states[i - 1], events[i - 1], states[i];
      assert Next(s, e, t);
      StepInTurn(s, e, t);
    }
  }

  lemma {:induction false} StepInTurn(s: State, e: Event, t: State)
    requires InTurn(s.notes, s.active) && Next(s, e, t)
    ensures InTurn(t.notes, t.active)
  {
    hide Evaluation, InTurn, RulesOf;
    match e
    case Direct(view, rows) => EvaluationInTurn(s.notes, s.active, RulesOf(s.rules, view), rows);
    case IfChanged(view, digest, rows, version) => EvaluationInTurn(s.notes, s.active, RulesOf(s.rules, view), rows);
    case Reconfigure(rules, order) =>
      SilencesInTurn(s.notes, s.active, order);
      assert (map key | key in s.active && key !in order :: s.active[key]) == t.active;
  }

  /**
   Skipping data that was evaluated already is not noticed: in every state of every run, the
   engine that evaluates it again says and becomes the same.
   */
  lemma {:induction false} SkippingIsNotNoticed(data: map<Digest, Data>, states: seq<State>, events: seq<Event>, i: nat)
    requires Run(states, events) && i < |events| && KeysApart(states[0].rules)
    requires forall k :: 0 <= k <= i ==>
      Honest(data, events[k]) && (events[k].Reconfigure? ==> KeysApart(events[k].rules))
    ensures events[i].IfChanged? ==>
      states[i + 1] == EvaluatedAlways(states[i], events[i].view, events[i].digest, events[i].rows, events[i].version)
  {
    EveryState(data, states, events, i);
    var s, e := states[i], events[i];
    assert Next(s, e, states[i + 1]) && Honest(data, e);
    if e.IfChanged? && SameData(s, e.view, e.digest) {
      SettledIsQuiet(s.active, RulesOf(s.rules, e.view), e.rows);
      assert s.notes + [] == s.notes;
    }
  }

  /** A recorded digest stands for the alerts of the view: active are exactly the violated rules. */
  lemma {:induction false} RecordedMeansSettled(data: map<Digest, Data>, states: seq<State>, events: seq<Event>,
                                                i: nat, r: Rule)
    requires Run(states, events) && i < |states| && KeysApart(states[0].rules)
    requires forall k :: 0 <= k < i ==>
      Honest(data, events[k]) && (events[k].Reconfigure? ==> KeysApart(events[k].rules))
    requires r in states[i].rules && r.view in states[i].evaluated
    ensures states[i].evaluated[r.view].digest in data
    ensures RuleKey(r) in states[i].active <==> Violations(r, data[states[i].evaluated[r.view].digest]) > 0
    ensures RuleKey(r) in states[i].active <==> ViolatingRows(r, data[states[i].evaluated[r.view].digest]) != {}
  {
    EveryState(data, states, events, i);
    OwnRules(states[i].rules, r.view);
    ViolationsAreRows(r, data[states[i].evaluated[r.view].digest]);
  }

  /**
   What an evaluation leaves: the alert of each rule of the view is active exactly if some
   row is on the wrong side of the threshold, and says how many are.
   */
  lemma {:induction false} EvaluatedMeans(s: State, view: string, rows: Data, r: Rule)
    requires KeysApart(s.rules) && r in s.rules && r.view == view
    ensures var active, places := EvaluatedDirectly(s, view, rows).active, ViolatingRows(r, rows);
      if places == {} then RuleKey(r) !in active
      else RuleKey(r) in active && active[RuleKey(r)] == Alert(view, r.column, |places|)
  {
    hide RuleKey, Violations, ViolatingRows;
    OwnRules(s.rules, view);
    EvaluationSettles(s.active, RulesOf(s.rules, view), rows);
    ViolationsAreRows(r, rows);
  }

  /** Neither a direct evaluation of the view nor a new configuration: its record stays. */
  predicate KeepsRecord(e: Event, view: string) {
    match e
    case Direct(v, _) => v != view
    case IfChanged(v, _, _, version) => v == view ==> version.Some?
    case Reconfigure(_, _) => false
  }

  /** Between resets the recorded version of a view never decreases, as long as versions are given. */
  lemma {:induction false} VersionsGrow(states: seq<State>, events: seq<Event>, i: nat, j: nat, view: string)
    requires Run(states, events) && i <= j < |states|
    requires forall k :: i <= k < j ==> KeepsRecord(events[k], view)
    requires view in states[i].evaluated && states[i].evaluated[view].version.Some?
    ensures view in states[j].evaluated && states[j].evaluated[view].version.Some?
    ensures states[j].evaluated[view].version.value >= states[i].evaluated[view].version.value
  {
    if i < j {
      VersionsGrow(states, events, i, j - 1, view);
      assert Next(states[j - 1], events[j - 1], states[j]) && KeepsRecord(events[j - 1], view);
    }
  }

  // ----------------------------------------------------------------- keys of two views

  /** Thresholds are numbers as Python writes them: without a colon, and different ones differently. */
  predicate PlainTexts(rules: seq<Rule>) {
    && (forall r :: r in rules ==> ':' !in r.text)
    && (forall a, b :: a in rules && b in rules && a.text == b.text ==> a.threshold == b.threshold)
  }

  /** Two rules whose keys are the same, told from their parts. */
  predicate SameParts(a: Rule, b: Rule) {
    a.view + ":" + a.column == b.view + ":" + b.column && a.op == b.op && a.text == b.text
  }

  /** No rules of different views have the same key. */
  predicate ViewsApart(rules: seq<Rule>) {
    forall a, b :: a in rules && b in rules && SameParts(a, b) ==> a.view == b.view
  }

  lemma {:induction false} LastColon(x: string, t: string, y: string, u: string)
    requires ':' !in u && x + ":" + t == y + ":" + u
    ensures |x| <= |y|
  {
    var s := x + ":" + t;
    assert s[|x|] == ':';
    forall i | |y| < i < |s| ensures s[i] != ':' {
      assert s[i] == u[i - |y| - 1];
    }
  }

  lemma {:induction false} SplitAtLastColon(x: string, t: string, y: string, u: string)
    requires ':' !in t && ':' !in u && x + ":" + t == y + ":" + u
    ensures x == y && t == u
  {
    LastColon(x, t, y, u);
    LastColon(y, u, x, t);
    var s := x + ":" + t;
    assert x == s[..|x|] && y == s[..|y|] && t == s[|x| + 1..] && u == s[|y| + 1..];
  }

  /** Keys are the same if and only if the parts of the rules say so. */
  lemma {:induction false} SameKeyIff(a: Rule, b: Rule)
    requires ':' !in a.text && ':' !in b.text
    ensures RuleKey(a) == RuleKey(b) <==> SameParts(a, b)
  {
    var x, y := a.view + ":" + a.column, b.view + ":" + b.column;
    assert RuleKey(a) == x + ":" + OpText(a.op) + ":" + a.text;
    assert RuleKey(b) == y + ":" + OpText(b.op) + ":" + b.text;
    if RuleKey(a) == RuleKey(b) {
      SplitAtLastColon(x + ":" + OpText(a.op), a.text, y + ":" + OpText(b.op), b.text);
      SplitAtLastColon(x, OpText(a.op), y, OpText(b.op));
    }
  }

  lemma {:induction false} ApartIff(rules: seq<Rule>)
    requires PlainTexts(rules)
    ensures KeysApart(rules) <==> ViewsApart(rules)
  {
    hide RuleKey;
    forall a, b | a in rules && b in rules
      ensures RuleKey(a) == RuleKey(b) <==> SameParts(a, b)
      ensures SameParts(a, b) && a.view == b.view ==> a.column == b.column
    {
      SameKeyIff(a, b);
      assert a.column == (a.view + ":" + a.column)[|a.view| + 1..];
      assert b.column == (b.view + ":" + b.column)[|b.view| + 1..];
    }
  }

  /** Rows that violate a rule. */
  function Breaking(r: Rule): Data {
    [map[r.column := match r.op
                     case Gt => r.threshold + 1.0
                     case Ne => r.threshold + 1.0
                     case Lt => r.threshold - 1.0
                     case _ => r.threshold]]
  }

  lemma {:induction false} NoRowsNoAlerts(active: map<string, Alert>, rules: seq<Rule>)
    ensures forall r :: r in rules ==> RuleKey(r) !in Evaluation(active, rules, []).active
  {
    hide RuleKey;
    if rules != [] {
      var before, last := rules[..|rules| - 1], rules[|rules| - 1];
      assert rules == before + [last];
      NoRowsNoAlerts(active, before);
    }
  }

  function Began(rules: seq<Rule>): State {
    State(rules, map[], map[], [])
  }

  /**
   Whenever rules of two views share a key, evaluating one view can end the alert of the
   other, while the recorded digest keeps that one from being evaluated again: its rule is
   violated, it is not active, and nobody will notice.
   */
  lemma {:induction false} SharedKeyLosesAlert(rules: seq<Rule>, a: Rule, b: Rule)
    requires a in rules && b in rules && RuleKey(a) == RuleKey(b) && a.view != b.view
    ensures var s1 := EvaluatedIfChanged(Began(rules), a.view, 1, Breaking(a), None);
      var s2 := EvaluatedIfChanged(s1, b.view, 2, [], None);
      && Violations(a, Breaking(a)) == 1 && RuleKey(a) !in s2.active
      && a.view in s2.evaluated && s2.evaluated[a.view].digest == 1
      && EvaluatedIfChanged(s2, a.view, 1, Breaking(a), None) == s2
  {
    hide RuleKey, Evaluation;
    assert Breaking(a)[..0] == [];
    var s1 := EvaluatedIfChanged(Began(rules), a.view, 1, Breaking(a), None);
    OwnRules(rules, b.view);
    assert b in RulesOf(rules, b.view);
    NoRowsNoAlerts(s1.active, RulesOf(rules, b.view));
  }

  /** Recorded digests stand for the alerts: active are exactly the violated rules of their rows. */
  ghost predicate RecordsHold(data: map<Digest, Data>, s: State) {
    forall r :: r in s.rules && r.view in s.evaluated ==>
      && s.evaluated[r.view].digest in data
      && (RuleKey(r) in s.active <==> Violations(r, data[s.evaluated[r.view].digest]) > 0)
  }

  /** A run that is configured with these rule sets only. */
  ghost predicate RunWith(configs: set<seq<Rule>>, data: map<Digest, Data>, states: seq<State>, events: seq<Event>) {
    && Run(states, events) && states[0].rules in configs
    && forall k :: 0 <= k < |events| ==>
      Honest(data, events[k]) && (events[k].Reconfigure? ==> events[k].rules in configs)
  }

  ghost predicate AlwaysHold(configs: set<seq<Rule>>) {
    forall data, states, events :: RunWith(configs, data, states, events) ==> RecordsHold(data, states[|events|])
  }

  /**
   Main result.  In all runs recorded digests stand for the alerts if and only if no
   configuration has rules of different views with the same key.
   */
  lemma {:induction false} RecordsHoldIff(configs: set<seq<Rule>>)
    requires forall rules :: rules in configs ==> PlainTexts(rules)
    ensures AlwaysHold(configs) <==> forall rules :: rules in configs ==> ViewsApart(rules)
  {
    hide PlainTexts, ViewsApart, RecordsHold, Next, Honest;
    if forall rules :: rules in configs ==> ViewsApart(rules) {
      forall data, states, events | RunWith(configs, data, states, events)
        ensures RecordsHold(data, states[|events|])
      {
        RecordsHoldIn(configs, data, states, events);
      }
    } else {
      var rules :| rules in configs && !ViewsApart(rules);
      var data, states, events := LosingRun(configs, rules);
      assert RunWith(configs, data, states, events);
    }
  }

  lemma {:induction false} RecordsHoldIn(configs: set<seq<Rule>>, data: map<Digest, Data>,
                                         states: seq<State>, events: seq<Event>)
    requires forall rules :: rules in configs ==> PlainTexts(rules) && ViewsApart(rules)
    requires RunWith(configs, data, states, events)
    ensures RecordsHold(data, states[|events|])
  {
    hide PlainTexts, ViewsApart, Honest, KeysApart, RuleKey, Violations;
    forall rules | rules in configs ensures KeysApart(rules) {
      ApartIff(rules);
    }
    forall r | r in states[|events|].rules && r.view in states[|events|].evaluated
      ensures states[|events|].evaluated[r.view].digest in data
      ensures RuleKey(r) in states[|events|].active
         <==> Violations(r, data[states[|events|].evaluated[r.view].digest]) > 0
    {
      RecordedMeansSettled(data, states, events, |events|, r);
    }
  }

  lemma {:induction false} LosingRun(configs: set<seq<Rule>>, rules: seq<Rule>)
    returns (data: map<Digest, Data>, states: seq<State>, events: seq<Event>)
    requires rules in configs && PlainTexts(rules) && !ViewsApart(rules)
    ensures RunWith(configs, data, states, events) && !RecordsHold(data, states[|events|])
  {
    hide RuleKey, Violations, Evaluation, SameParts;
    var a, b :| a in rules && b in rules && SameParts(a, b) && a.view != b.view;
    SameKeyIff(a, b);
    SharedKeyLosesAlert(rules, a, b);
    var s1 := EvaluatedIfChanged(Began(rules), a.view, 1, Breaking(a), None);
    var s2 := EvaluatedIfChanged(s1, b.view, 2, [], None);
    data := map[1 := Breaking(a), 2 := []];
    states := [Began(rules), s1, s2];
    events := [IfChanged(a.view, 1, Breaking(a), None), IfChanged(b.view, 2, [], None)];
    assert a in s2.rules;
  }

  /** Views whose names have no colon never share a key. */
  lemma {:induction false} KeysTellViewsApart(a: Rule, b: Rule)
    requires ':' !in a.view && ':' !in b.view && RuleKey(a) == RuleKey(b)
    ensures a.view == b.view
  {
    var key := RuleKey(a);
    assert key[|a.view|] == ':' && key[|b.view|] == ':';
    assert a.view == key[..|a.view|] && b.view == key[..|b.view|];
    assert forall i :: 0 <= i < |a.view| ==> key[i] == a.view[i];
    assert forall i :: 0 <= i < |b.view| ==> key[i] == b.view[i];
  }

  /** With a colon they can. */
  lemma {:induction false} KeysCanCollide()
    ensures var a, b := Rule("a", "b:c", Gt, 1.0, "1.0"), Rule("a:b", "c", Gt, 1.0, "1.0");
      && PlainTexts([a, b]) && !ViewsApart([a, b]) && !AlwaysHold({[a, b]})
  {
    hide AlwaysHold;
    var a, b := Rule("a", "b:c", Gt, 1.0, "1.0"), Rule("a:b", "c", Gt, 1.0, "1.0");
    assert a.view + ":" + a.column == "a:b:c" == b.view + ":" + b.column;
    assert a in [a, b] && b in [a, b] && SameParts(a, b);
    RecordsHoldIff({[a, b]});
  }
}
