/**
 The alert rule state machine (internal/service/alerts.go and the touch, transition and update
 statements of internal/db/alert.sql.go).

 Evaluators act on snapshots that may be stale by the time they write; owners edit rules on the
 strength of a read that may be stale too.  Every statement is one atomic step.
 */
module AlertRules {
  import opened Options

  type Id = int

  datatype RuleState = Inactive | Open
  datatype Kind = Opened | Resolved
  /** The status of the automated report; Other stands for every status that is neither. */
  datatype Verdict = Failing | Passing | Other

  /** The fields a verdict depends on. */
  datatype Config = Config(
    repository: string, baseline: string, threshold: real, thresholdZ: real, runReason: Option<string>)

  datatype Rule = Rule(config: Config, enabled: bool, state: RuleState, lastEvaluated: Option<int>)

  /**
   A rule's history: its events, cut by resets.  An event keeps the configuration its report was
   judged under and the configuration the rule had when the event was inserted.
   */
  datatype Entry = Event(kind: Kind, verdict: Verdict, judged: Config, during: Config) | Reset

  datatype Tables = Tables(rules: map<Id, Rule>, history: map<Id, seq<Entry>>)

  // ---------------------------------------------------------------------------------------
  // The statements

  /** The common WHERE clause of touch and transition. */
  predicate Matches(t: Tables, id: Id, state: RuleState, config: Config) {
    id in t.rules && t.rules[id].state == state && t.rules[id].enabled && t.rules[id].config == config
  }

  function Touch(t: Tables, id: Id, seen: Rule, at: int): Tables {
    if Matches(t, id, seen.state, seen.config)
    then t.(rules := t.rules[id := t.rules[id].(lastEvaluated := Some(at))])
    else t
  }

  /** TransitionAlertRule: the compare-and-swap and the event insert are one statement. */
  function Transition(
    t: Tables, id: Id, from: RuleState, to: RuleState, seen: Config, kind: Kind, verdict: Verdict, at: int): Tables
    requires t.rules.Keys == t.history.Keys
  {
    if Matches(t, id, from, seen) then
      Tables(
        t.rules[id := t.rules[id].(state := to, lastEvaluated := Some(at))],
        t.history[id := t.history[id] + [Event(kind, verdict, seen, t.rules[id].config)]])
    else t
  }

  /** UpdateAlertRule. */
  function Update(t: Tables, id: Id, config: Config, enabled: bool, reset: bool): Tables
    requires t.rules.Keys == t.history.Keys
  {
    if id !in t.rules then t else
      var r := t.rules[id].(config := config, enabled := enabled);
      if reset then
        Tables(t.rules[id := r.(state := Inactive, lastEvaluated := None)], t.history[id := t.history[id] + [Reset]])
      else t.(rules := t.rules[id := r])
  }

  /** openIfNeeded, resolveIfNeeded and the default branch of evaluateRule. */
  function Act(t: Tables, id: Id, seen: Rule, verdict: Verdict, at: int): Tables
    requires t.rules.Keys == t.history.Keys
  {
    if verdict == Failing && seen.state == Inactive then
      Transition(t, id, Inactive, Open, seen.config, Opened, verdict, at)
    else if verdict == Passing && seen.state == Open then
      Transition(t, id, Open, Inactive, seen.config, Resolved, verdict, at)
    else Touch(t, id, seen, at)
  }

  // ---------------------------------------------------------------------------------------
  // The protocol

  /** An evaluator works through the snapshots it listed; an editor has read one rule. */
  datatype Actor =
    | Idle
    | Evaluating(pending: seq<(Id, Rule)>)
    | Judged(pending: seq<(Id, Rule)>, verdict: Verdict, at: int)
    | Editing(id: Id, seen: Config)

  datatype State = State(tables: Tables, actors: seq<Actor>)

  datatype Step =
    | Create(id: Id, config: Config, enabled: bool)
    | Delete(id: Id)
    | List(p: nat, listed: seq<Id>)
    | Judge(p: nat, verdict: Verdict, at: int)
    | GiveUp(p: nat)
    | Write(p: nat)
    | ReadRule(p: nat, id: Id)
    | WriteRule(p: nat, config: Config, enabled: bool)

  predicate Enabled(s: State, step: Step) {
    match step
    case Create(id, _, _) => id !in s.tables.rules
    case Delete(_) => true
    case List(p, listed) =>
      p < |s.actors| && s.actors[p].Idle?
      && forall i | 0 <= i < |listed| :: listed[i] in s.tables.rules && s.tables.rules[listed[i]].enabled
    case Judge(p, _, _) => p < |s.actors| && s.actors[p].Evaluating? && s.actors[p].pending != []
    case GiveUp(p) => p < |s.actors| && s.actors[p].Evaluating?
    case Write(p) => p < |s.actors| && s.actors[p].Judged? && s.actors[p].pending != []
    case ReadRule(p, id) => p < |s.actors| && s.actors[p].Idle? && id in s.tables.rules
    case WriteRule(p, _, _) => p < |s.actors| && s.actors[p].Editing?
  }

  function Apply(s: State, step: Step): State
    requires Enabled(s, step) && s.tables.rules.Keys == s.tables.history.Keys
  {
    var t := s.tables;
    match step
    case Create(id, config, enabled) =>
      s.(tables := Tables(t.rules[id := Rule(config, enabled, Inactive, None)], t.history[id := []]))
    case Delete(id) => s.(tables := Tables(t.rules - {id}, t.history - {id}))
    case List(p, listed) =>
      var snapshots := seq(|listed|, i requires 0 <= i < |listed| => (listed[i], t.rules[listed[i]]));
      s.(actors := s.actors[p := Evaluating(snapshots)])
    case Judge(p, verdict, at) => s.(actors := s.actors[p := Judged(s.actors[p].pending, verdict, at)])
    case GiveUp(p) =>
      var rest := s.actors[p].pending;
      s.(actors := s.actors[p := if |rest| <= 1 then Idle else Evaluating(rest[1..])])
    case Write(p) =>
      var a := s.actors[p];
      State(Act(t, a.pending[0].0, a.pending[0].1, a.verdict, a.at), s.actors[p := Evaluating(a.pending[1..])])
    case ReadRule(p, id) => s.(actors := s.actors[p := Editing(id, t.rules[id].config)])
    case WriteRule(p, config, enabled) =>
      var a := s.actors[p];
      State(Update(t, a.id, config, enabled, a.seen != config), s.actors[p := Idle])
  }

  // ---------------------------------------------------------------------------------------
  // What every history looks like

  /** Between resets the kinds alternate, beginning with opened. */
  predicate Alternates(h: seq<Entry>) {
    forall i | 0 <= i < |h| && h[i].Event? ::
      h[i].kind == if EndsOpened(h[..i]) then Resolved else Opened
  }

  /** The last event since the last reset is an opening. */
  predicate EndsOpened(h: seq<Entry>) {
    h != [] && h[|h| - 1].Event? && h[|h| - 1].kind == Opened
  }

  /** Each event was judged under the rule's own configuration, with the verdict its kind calls for. */
  predicate RightlyJudged(e: Entry) {
    e.Event? ==> e.judged == e.during && e.verdict == if e.kind == Opened then Failing else Passing
  }

  predicate HistoryOf(rule: Rule, h: seq<Entry>) {
    && Alternates(h)
    && (rule.state == Open <==> EndsOpened(h))
    && (forall i | 0 <= i < |h| :: RightlyJudged(h[i]))
    && (rule.state == Open ==> rule.lastEvaluated.Some?)
  }

  predicate Inv(t: Tables) {
    && t.rules.Keys == t.history.Keys
    && forall id | id in t.rules :: HistoryOf(t.rules[id], t.history[id])
  }

  predicate CanRun(s: State, steps: seq<Step>)
    requires Inv(s.tables)
    decreases steps
  {
    steps == [] || (Enabled(s, steps[0]) && (StepKeepsInv(s, steps[0]); CanRun(Apply(s, steps[0]), steps[1..])))
  }

  function Run(s: State, steps: seq<Step>): State
    requires Inv(s.tables) && CanRun(s, steps)
    decreases steps
  {
    if steps == [] then s else
      StepKeepsInv(s, steps[0]);
      Run(Apply(s, steps[0]), steps[1..])
  }

  lemma Extended(rule: Rule, h: seq<Entry>, e: Entry, next: Rule)
    requires HistoryOf(rule, h) && RightlyJudged(e)
    requires e.Event? ==> e.kind == (if rule.state == Inactive then Opened else Resolved)
    requires next.state == if e.Event? && e.kind == Opened then Open else Inactive
    requires next.state == Open ==> next.lastEvaluated.Some?
    ensures HistoryOf(next, h + [e])
  {
    var g := h + [e];
    forall i | 0 <= i < |g| && g[i].Event?
      ensures g[i].kind == if EndsOpened(g[..i]) then Resolved else Opened
    {
      if i < |h| {
        assert g[i] == h[i] && g[..i] == h[..i];
      } else {
        assert g[..i] == h;
      }
    }
  }

  lemma ActKeepsInv(t: Tables, id: Id, seen: Rule, verdict: Verdict, at: int)
    requires Inv(t)
    ensures Inv(Act(t, id, seen, verdict, at))
  {
    if Matches(t, id, seen.state, seen.config) && verdict != Other && (verdict == Failing <==> seen.state == Inactive) {
      var kind := if verdict == Failing then Opened else Resolved;
      var u := Act(t, id, seen, verdict, at);
      Extended(t.rules[id], t.history[id], Event(kind, verdict, seen.config, t.rules[id].config), u.rules[id]);
    }
  }

  lemma UpdateKeepsInv(t: Tables, id: Id, config: Config, enabled: bool, reset: bool)
    requires Inv(t)
    ensures Inv(Update(t, id, config, enabled, reset))
  {
    if id in t.rules && reset {
      Extended(t.rules[id], t.history[id], Reset, Update(t, id, config, enabled, reset).rules[id]);
    }
  }

  lemma StepKeepsInv(s: State, step: Step)
    requires Inv(s.tables) && Enabled(s, step)
    ensures Inv(Apply(s, step).tables)
  {
    match step
    case Write(p) =>
      var a := s.actors[p];
      ActKeepsInv(s.tables, a.pending[0].0, a.pending[0].1, a.verdict, a.at);
    case WriteRule(p, config, enabled) =>
      UpdateKeepsInv(s.tables, s.actors[p].id, config, enabled, s.actors[p].seen != config);
    case _ =>
  }

  lemma {:induction false} RunKeepsInv(s: State, steps: seq<Step>)
    requires Inv(s.tables) && CanRun(s, steps)
    ensures Inv(Run(s, steps).tables)
    decreases steps
  {
    if steps != [] {
      StepKeepsInv(s, steps[0]);
      RunKeepsInv(Apply(s, steps[0]), steps[1..]);
    }
  }

  /** No rule yet: every interleaving of evaluators and editors leaves every history well formed. */
  lemma ReachableHistories(s: State, steps: seq<Step>, id: Id)
    requires s.tables == Tables(map[], map[]) && CanRun(s, steps)
    requires id in Run(s, steps).tables.rules
    ensures var t := Run(s, steps).tables;
            && id in t.history && Alternates(t.history[id])
            && (t.rules[id].state == Open <==> EndsOpened(t.history[id]))
            && forall i | 0 <= i < |t.history[id]| :: RightlyJudged(t.history[id][i])
  {
    RunKeepsInv(s, steps);
  }

  /** Counting from the start or from a reset, the even entries are openings and the odd ones resolutions. */
  lemma {:induction false} EventParity(h: seq<Entry>, from: nat, k: nat)
    requires Alternates(h) && from + k < |h| && (from == 0 || h[from - 1] == Reset)
    requires forall i | from <= i <= from + k :: h[i].Event?
    ensures h[from + k].kind == if k % 2 == 0 then Opened else Resolved
    decreases k
  {
    if k > 0 {
      EventParity(h, from, k - 1);
      assert h[..from + k][from + k - 1] == h[from + k - 1];
    }
  }

  /** A second evaluator that read the same snapshot and reached the same verdict changes nothing. */
  lemma SecondTransitionLoses(t: Tables, id: Id, seen: Rule, verdict: Verdict, at: int, later: int)
    requires Inv(t) && verdict != Other && (verdict == Failing <==> seen.state == Inactive)
    requires Matches(t, id, seen.state, seen.config)
    ensures var u := Act(t, id, seen, verdict, at);
            |u.history[id]| == |t.history[id]| + 1 && u.rules.Keys == u.history.Keys
            && Act(u, id, seen, verdict, later) == u
  {
  }

  // ---------------------------------------------------------------------------------------
  // What an edit, a touch and a transition leave behind

  /** All rules but this one, and their histories, are as before. */
  ghost predicate OthersKept(t: Tables, u: Tables, id: Id) {
    && u.rules.Keys == t.rules.Keys && u.history.Keys == t.history.Keys
    && (forall d | d in t.rules && d != id :: u.rules[d] == t.rules[d])
    && (forall d | d in t.history && d != id :: u.history[d] == t.history[d])
  }

  /**
   After an edit the rule has the requested configuration and enabled flag.  A reset makes it inactive and
   unevaluated and cuts its history without an event; otherwise state, evaluation and history stay.
   */
  lemma EditStores(t: Tables, id: Id, config: Config, enabled: bool, reset: bool)
    requires Inv(t) && id in t.rules
    ensures var u := Update(t, id, config, enabled, reset);
            && OthersKept(t, u, id)
            && u.rules[id].config == config && u.rules[id].enabled == enabled
            && (if reset then
                  u.rules[id].state == Inactive && u.rules[id].lastEvaluated == None
                  && u.history[id] == t.history[id] + [Reset]
                else
                  u.rules[id].state == t.rules[id].state && u.rules[id].lastEvaluated == t.rules[id].lastEvaluated
                  && u.history[id] == t.history[id])
  {
  }

  /** The rule is enabled and in the state and under the configuration that were read. */
  predicate StillAsSeen(t: Tables, id: Id, seen: Rule) {
    id in t.rules && t.rules[id].enabled && t.rules[id].state == seen.state && t.rules[id].config == seen.config
  }

  /**
   What an evaluator's write does.  It changes the rule only if the rule is still enabled and in the state and under
   the configuration of the snapshot; then it is opened on a failing verdict, resolved on a passing one, with one
   event, or else only its evaluation time is set.
   */
  lemma ActMeaning(t: Tables, id: Id, seen: Rule, verdict: Verdict, at: int)
    requires Inv(t)
    ensures var u := Act(t, id, seen, verdict, at);
            && OthersKept(t, u, id)
            && (!StillAsSeen(t, id, seen) ==> u == t)
            && (StillAsSeen(t, id, seen) ==>
                  && u.rules[id].config == t.rules[id].config && u.rules[id].enabled
                  && u.rules[id].lastEvaluated == Some(at)
                  && u.rules[id].state == (if verdict == Failing then Open else if verdict == Passing then Inactive
                                           else t.rules[id].state)
                  && (u.history[id] == t.history[id] <==> u.rules[id].state == t.rules[id].state)
                  && |u.history[id]| <= |t.history[id]| + 1)
  {
  }

  /** A created rule is inactive with an empty history; a deleted one is gone; no other rule notices. */
  lemma CreateAndDelete(s: State, step: Step)
    requires Inv(s.tables) && Enabled(s, step)
    ensures step.Create? ==>
              var t := Apply(s, step).tables;
              && t.rules.Keys == s.tables.rules.Keys + {step.id} && t.history.Keys == t.rules.Keys
              && t.rules[step.id] == Rule(step.config, step.enabled, Inactive, None) && t.history[step.id] == []
              && forall d | d in s.tables.rules ::
                   t.rules[d] == s.tables.rules[d] && t.history[d] == s.tables.history[d]
    ensures step.Delete? ==>
              var t := Apply(s, step).tables;
              && t.rules.Keys == s.tables.rules.Keys - {step.id} && t.history.Keys == t.rules.Keys
              && forall d | d in t.rules :: t.rules[d] == s.tables.rules[d] && t.history[d] == s.tables.history[d]
  {
  }

  // ---------------------------------------------------------------------------------------
  // A disabled rule is silent

  /** The events of a history, resets left out. */
  function EventsOf(h: seq<Entry>): seq<Entry> {
    if h == [] then [] else
      EventsOf(h[..|h| - 1]) + if h[|h| - 1].Event? then [h[|h| - 1]] else []
  }

  /** This step does not enable the rule: no edit and no creation with the flag set. */
  predicate DoesNotEnable(s: State, step: Step, id: Id)
    requires Enabled(s, step)
  {
    && (step.WriteRule? && s.actors[step.p].id == id ==> !step.enabled)
    && (step.Create? && step.id == id ==> !step.enabled)
  }

  predicate NeverEnabled(s: State, steps: seq<Step>, id: Id)
    requires Inv(s.tables) && CanRun(s, steps)
    decreases steps
  {
    steps == [] || (
      && DoesNotEnable(s, steps[0], id)
      && (StepKeepsInv(s, steps[0]); NeverEnabled(Apply(s, steps[0]), steps[1..], id)))
  }

  /** Disabled or gone, and with no event beyond these. */
  ghost predicate Silent(t: Tables, id: Id, events: seq<Entry>) {
    id in t.rules ==> !t.rules[id].enabled && id in t.history && EventsOf(t.history[id]) <= events
  }

  lemma ResetAddsNoEvent(h: seq<Entry>)
    ensures EventsOf(h + [Reset]) == EventsOf(h)
  {
    assert (h + [Reset])[..|h|] == h;
  }

  lemma StepIsSilent(s: State, step: Step, id: Id, events: seq<Entry>)
    requires Inv(s.tables) && Enabled(s, step) && DoesNotEnable(s, step, id) && Silent(s.tables, id, events)
    ensures Silent(Apply(s, step).tables, id, events)
  {
    match step
    case Write(p) =>
      var a := s.actors[p];
      ActMeaning(s.tables, a.pending[0].0, a.pending[0].1, a.verdict, a.at);
    case WriteRule(p, config, enabled) =>
      if s.actors[p].id in s.tables.rules {
        EditStores(s.tables, s.actors[p].id, config, enabled, s.actors[p].seen != config);
        ResetAddsNoEvent(s.tables.history[s.actors[p].id]);
      }
    case _ =>
  }

  /**
   From a state in which a rule is disabled, every run that does not enable it adds no event to its history,
   however stale the evaluators' snapshots are.
   */
  lemma {:induction false} DisabledRuleIsSilent(s: State, steps: seq<Step>, id: Id, events: seq<Entry>)
    requires Inv(s.tables) && CanRun(s, steps) && NeverEnabled(s, steps, id) && Silent(s.tables, id, events)
    ensures Silent(Run(s, steps).tables, id, events)
    decreases steps
  {
    if steps != [] {
      StepKeepsInv(s, steps[0]);
      StepIsSilent(s, steps[0], id, events);
      DisabledRuleIsSilent(Apply(s, steps[0]), steps[1..], id, events);
    }
  }

  // ---------------------------------------------------------------------------------------
  // Is an open rule open under its present configuration?

  /** Every event since the last reset was judged under this configuration. */
  predicate JudgedUnder(h: seq<Entry>, config: Config)
    decreases |h|
  {
    h == [] || h[|h| - 1] == Reset || (h[|h| - 1].judged == config && JudgedUnder(h[..|h| - 1], config))
  }

  predicate Current(t: Tables) {
    && Inv(t)
    && forall id | id in t.rules :: JudgedUnder(t.history[id], t.rules[id].config)
  }

  predicate NoEventSinceReset(h: seq<Entry>) {
    h == [] || h[|h| - 1] == Reset
  }

  /**
   One edit of a rule whose events all stand under its configuration: they still do afterwards
   exactly when the edit resets, keeps the configuration, or finds nothing to invalidate.
   */
  lemma EditKeepsCurrentIff(t: Tables, id: Id, seen: Config, config: Config, enabled: bool)
    requires Current(t) && id in t.rules
    ensures Current(Update(t, id, config, enabled, seen != config))
            <==> seen != config || config == t.rules[id].config || NoEventSinceReset(t.history[id])
  {
    var u := Update(t, id, config, enabled, seen != config);
    UpdateKeepsInv(t, id, config, enabled, seen != config);
    var h := t.history[id];
    if seen != config {
      assert u.history[id] == h + [Reset];
    } else {
      assert u.history[id] == h && u.rules[id].config == config;
    }
  }

  lemma AppendedJudged(h: seq<Entry>, e: Entry, config: Config)
    requires JudgedUnder(h, config) && (e.Event? ==> e.judged == config)
    ensures JudgedUnder(h + [e], config)
  {
    assert (h + [e])[..|h|] == h;
  }

  lemma ActKeepsCurrent(t: Tables, id: Id, seen: Rule, verdict: Verdict, at: int)
    requires Current(t)
    ensures Current(Act(t, id, seen, verdict, at))
  {
    var u := Act(t, id, seen, verdict, at);
    ActKeepsInv(t, id, seen, verdict, at);
    if id in t.rules && u.history[id] != t.history[id] {
      var kind := if verdict == Failing then Opened else Resolved;
      AppendedJudged(t.history[id], Event(kind, verdict, seen.config, t.rules[id].config), t.rules[id].config);
    }
  }

  /** The editor writes over the configuration it read. */
  predicate Undisturbed(s: State, step: Step)
    requires Enabled(s, step)
  {
    step.WriteRule? && s.actors[step.p].id in s.tables.rules ==>
      s.tables.rules[s.actors[step.p].id].config == s.actors[step.p].seen
  }

  predicate UndisturbedRun(s: State, steps: seq<Step>)
    requires Inv(s.tables) && CanRun(s, steps)
    decreases steps
  {
    steps == [] || (
      && Undisturbed(s, steps[0])
      && (StepKeepsInv(s, steps[0]); UndisturbedRun(Apply(s, steps[0]), steps[1..])))
  }

  lemma StepKeepsCurrent(s: State, step: Step)
    requires Current(s.tables) && Enabled(s, step) && Undisturbed(s, step)
    ensures Current(Apply(s, step).tables)
  {
    StepKeepsInv(s, step);
    match step
    case Write(p) =>
      var a := s.actors[p];
      ActKeepsCurrent(s.tables, a.pending[0].0, a.pending[0].1, a.verdict, a.at);
    case WriteRule(p, config, enabled) =>
      var a := s.actors[p];
      if a.id in s.tables.rules {
        EditKeepsCurrentIff(s.tables, a.id, a.seen, config, enabled);
      }
    case _ =>
  }

  /** When no edit overwrites another unseen, an open rule is open under the configuration it has now. */
  lemma {:induction false} UndisturbedRunIsCurrent(s: State, steps: seq<Step>)
    requires Current(s.tables) && CanRun(s, steps) && UndisturbedRun(s, steps)
    ensures Current(Run(s, steps).tables)
    decreases steps
  {
    if steps != [] {
      StepKeepsCurrent(s, steps[0]);
      UndisturbedRunIsCurrent(Apply(s, steps[0]), steps[1..]);
    }
  }

  lemma OneMore(s: State, step: Step, next: State, steps: seq<Step>, end: State)
    requires Inv(s.tables) && Enabled(s, step) && Apply(s, step) == next && Inv(next.tables)
    requires CanRun(next, steps) && Run(next, steps) == end
    ensures CanRun(s, [step] + steps) && Run(s, [step] + steps) == end
  {
    assert ([step] + steps)[1..] == steps;
  }

  /** One rule, two editors and an evaluator. */
  function Scene(id: Id, config: Config, state: RuleState, at: Option<int>, h: seq<Entry>, actors: seq<Actor>): State {
    State(Tables(map[id := Rule(config, true, state, at)], map[id := h]), actors)
  }

  /**
   An edit computed from a stale read can restore an old configuration without a reset: the rule
   stays open although its opening was judged under another configuration.
   */
  lemma StaleEditLeavesOldVerdict(a: Config, b: Config, id: Id, at: int)
    requires a != b
    ensures var s := State(Tables(map[], map[]), [Idle, Idle, Idle]);
            var steps := [Create(id, a, true), ReadRule(0, id), ReadRule(1, id), WriteRule(1, b, true),
                          List(2, [id]), Judge(2, Failing, at), Write(2), WriteRule(0, a, true)];
            && CanRun(s, steps)
            && var t := Run(s, steps).tables;
            && t == Tables(map[id := Rule(a, true, Open, Some(at))], map[id := [Reset, Event(Opened, Failing, b, b)]])
            && !Current(t)
  {
    var s0 := State(Tables(map[], map[]), [Idle, Idle, Idle]);
    var s1 := Scene(id, a, Inactive, None, [], [Idle, Idle, Idle]);
    var s2 := Scene(id, a, Inactive, None, [], [Editing(id, a), Idle, Idle]);
    var s3 := Scene(id, a, Inactive, None, [], [Editing(id, a), Editing(id, a), Idle]);
    var s4 := Scene(id, b, Inactive, None, [Reset], [Editing(id, a), Idle, Idle]);
    var end := StaleEditEnd(a, b, id, at);
    var r4 := [List(2, [id]), Judge(2, Failing, at), Write(2), WriteRule(0, a, true)];
    assert [] + [Reset] == [Reset];
    assert Update(s3.tables, id, b, true, true) == s4.tables;
    OneMore(s3, WriteRule(1, b, true), s4, r4, end);
    var r3 := [WriteRule(1, b, true)] + r4;
    OneMore(s2, ReadRule(1, id), s3, r3, end);
    var r2 := [ReadRule(1, id)] + r3;
    OneMore(s1, ReadRule(0, id), s2, r2, end);
    var r1 := [ReadRule(0, id)] + r2;
    OneMore(s0, Create(id, a, true), s1, r1, end);
    assert [Create(id, a, true)] + r1 ==
           [Create(id, a, true), ReadRule(0, id), ReadRule(1, id), WriteRule(1, b, true),
            List(2, [id]), Judge(2, Failing, at), Write(2), WriteRule(0, a, true)];
    assert !JudgedUnder(end.tables.history[id], a);
  }

  lemma StaleEditEnd(a: Config, b: Config, id: Id, at: int) returns (end: State)
    requires a != b
    ensures var s4 := Scene(id, b, Inactive, None, [Reset], [Editing(id, a), Idle, Idle]);
            var r4 := [List(2, [id]), Judge(2, Failing, at), Write(2), WriteRule(0, a, true)];
            CanRun(s4, r4) && Run(s4, r4) == end
    ensures end.tables == Tables(
              map[id := Rule(a, true, Open, Some(at))], map[id := [Reset, Event(Opened, Failing, b, b)]])
  {
    var seen := [(id, Rule(b, true, Inactive, None))];
    var s4 := Scene(id, b, Inactive, None, [Reset], [Editing(id, a), Idle, Idle]);
    var s5 := Scene(id, b, Inactive, None, [Reset], [Editing(id, a), Idle, Evaluating(seen)]);
    var s6 := Scene(id, b, Inactive, None, [Reset], [Editing(id, a), Idle, Judged(seen, Failing, at)]);
    end := StaleEditWrites(a, b, id, at, s6);
    var r6 := [Write(2), WriteRule(0, a, true)];
    OneMore(s5, Judge(2, Failing, at), s6, r6, end);
    var r5 := [Judge(2, Failing, at)] + r6;
    assert Apply(s4, List(2, [id])).actors[2].pending == seen;
    OneMore(s4, List(2, [id]), s5, r5, end);
    assert [List(2, [id])] + r5 == [List(2, [id]), Judge(2, Failing, at), Write(2), WriteRule(0, a, true)];
  }

  lemma StaleEditWrites(a: Config, b: Config, id: Id, at: int, s6: State) returns (end: State)
    requires a != b
    requires s6 == Scene(id, b, Inactive, None, [Reset],
                         [Editing(id, a), Idle, Judged([(id, Rule(b, true, Inactive, None))], Failing, at)])
    ensures Inv(s6.tables)
    ensures var r6 := [Write(2), WriteRule(0, a, true)];
            CanRun(s6, r6) && Run(s6, r6) == end
    ensures end.tables == Tables(
              map[id := Rule(a, true, Open, Some(at))], map[id := [Reset, Event(Opened, Failing, b, b)]])
  {
    var seen := Rule(b, true, Inactive, None);
    var h := [Reset, Event(Opened, Failing, b, b)];
    var s7 := Scene(id, b, Open, Some(at), h, [Editing(id, a), Idle, Evaluating([])]);
    end := Scene(id, a, Open, Some(at), h, [Idle, Idle, Evaluating([])]);
    assert [Reset] + [h[1]] == h;
    assert Act(s6.tables, id, seen, Failing, at) == s7.tables;
    assert s6.actors[2].pending[1..] == [];
    OneMore(s7, WriteRule(0, a, true), end, [], end);
    OneMore(s6, Write(2), s7, [WriteRule(0, a, true)], end);
    assert [Write(2)] + [WriteRule(0, a, true)] == [Write(2), WriteRule(0, a, true)];
    assert [WriteRule(0, a, true)] + [] == [WriteRule(0, a, true)];
  }
}
