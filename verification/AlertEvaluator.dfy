/**
 AlertEvaluator.Evaluate (internal/service/alerts.go) over a store of rules and events.  The snapshots it works
 through may be stale, and other evaluators and owners write before each of its own writes.
 */
module AlertEvaluator {
  import opened Options
  import opened AlertRules

  /** What evaluateRule learns about a rule before it acts. */
  datatype Outcome = NoCandidate | LookupError | Report(verdict: Verdict)

  datatype Summary = Summary(
    rules: nat, evaluated: nat, opens: nat, resolves: nat, unmoved: nat, skipped: nat,
    noCandidate: nat, failed: nat, failures: seq<Id>, events: seq<(Id, Entry)>)

  // ---------------------------------------------------------------------------------------
  // What becomes of one rule

  /** The tables after one evaluateRule. */
  function EvaluatedOne(t: Tables, id: Id, seen: Rule, outcome: Outcome, at: int): Tables
    requires t.rules.Keys == t.history.Keys
  {
    match outcome
    case NoCandidate => Touch(t, id, seen, at)
    case LookupError => t
    case Report(verdict) => Act(t, id, seen, verdict, at)
  }

  lemma EvaluatedOneKeepsInv(t: Tables, id: Id, seen: Rule, outcome: Outcome, at: int)
    requires Inv(t)
    ensures Inv(EvaluatedOne(t, id, seen, outcome, at))
  {
    ActKeepsInv(t, id, seen, if outcome.Report? then outcome.verdict else Other, at);
  }

  /** How a rule ends; `gone` says that the store no longer has it, which is an error. */
  datatype Fate =
    | LookupFailed | Untried(gone: bool) | Passed(gone: bool) | Kept(gone: bool) | Vanished | Moved(event: Entry)

  function Wanted(verdict: Verdict): RuleState {
    if verdict == Failing then Open else Inactive
  }

  function FateOf(t: Tables, id: Id, seen: Rule, outcome: Outcome): Fate {
    var gone := id !in t.rules;
    match outcome
    case LookupError => LookupFailed
    case NoCandidate => Untried(gone)
    case Report(verdict) =>
      if verdict == Other then Passed(gone)
      else if seen.state == Wanted(verdict) then Kept(gone)
      else if gone then Vanished
      else if Matches(t, id, seen.state, seen.config) then
        Moved(Event(if verdict == Failing then Opened else Resolved, verdict, seen.config, t.rules[id].config))
      else Kept(false)
  }

  predicate Fails(f: Fate) {
    f.LookupFailed? || f.Vanished? || (f.Untried? && f.gone) || (f.Passed? && f.gone) || (f.Kept? && f.gone)
  }

  /** A rule is reported as moved exactly when its history grew, by the reported event. */
  lemma FateTellsHistory(t: Tables, id: Id, seen: Rule, outcome: Outcome, at: int)
    requires Inv(t)
    ensures var f, u := FateOf(t, id, seen, outcome), EvaluatedOne(t, id, seen, outcome, at);
            if f.Moved? then id in t.history && u.history == t.history[id := t.history[id] + [f.event]]
            else u.history == t.history
  {
  }

  /**
   A failing verdict on an inactive snapshot asks for an opening, a passing one on an open snapshot for a
   resolution.
   */
  predicate AsksToMove(seen: Rule, outcome: Outcome) {
    (outcome == Report(Failing) && seen.state == Inactive) || (outcome == Report(Passing) && seen.state == Open)
  }

  /** What each fate means, in terms of what was learnt and what the store held at the write. */
  lemma FateMeaning(t: Tables, id: Id, seen: Rule, outcome: Outcome)
    ensures var f := FateOf(t, id, seen, outcome);
            && (f.LookupFailed? <==> outcome.LookupError?)
            && (f.Untried? <==> outcome.NoCandidate?)
            && (f.Passed? <==> outcome == Report(Other))
            && (f.Moved? <==> AsksToMove(seen, outcome) && StillAsSeen(t, id, seen))
            && (f.Moved? ==> f.event == Event(if seen.state == Inactive then Opened else Resolved, outcome.verdict,
                                              seen.config, seen.config))
            && (f.Vanished? <==> AsksToMove(seen, outcome) && id !in t.rules)
            && (Fails(f) <==> outcome.LookupError? || id !in t.rules)
  {
  }

  /** An evaluation touches nothing after a failed lookup, and otherwise dates the rule exactly while it is as seen. */
  lemma EvaluationDates(t: Tables, id: Id, seen: Rule, outcome: Outcome, at: int)
    requires Inv(t)
    ensures var u := EvaluatedOne(t, id, seen, outcome, at);
            && (outcome.LookupError? || !StillAsSeen(t, id, seen) ==> u == t)
            && (!outcome.LookupError? && StillAsSeen(t, id, seen) ==> u.rules[id].lastEvaluated == Some(at))
            && (outcome.NoCandidate? ==> u.history == t.history)
            && (outcome.NoCandidate? && id in t.rules ==> u.rules[id].state == t.rules[id].state)
  {
  }

  // ---------------------------------------------------------------------------------------
  // The summary counts the fates

  function Noted(s: Summary, id: Id, f: Fate): Summary {
    Bucketed(s.(evaluated := s.evaluated + if f.LookupFailed? || f.Untried? then 0 else 1), id, f)
  }

  function Bucketed(s: Summary, id: Id, f: Fate): Summary {
    s.(noCandidate := s.noCandidate + (if f.Untried? then 1 else 0),
       skipped := s.skipped + (if f.Passed? then 1 else 0),
       unmoved := s.unmoved + (if f.Kept? then 1 else 0),
       opens := s.opens + (if f.Moved? && f.event.Event? && f.event.kind == Opened then 1 else 0),
       resolves := s.resolves + (if f.Moved? && !(f.event.Event? && f.event.kind == Opened) then 1 else 0),
       failed := s.failed + (if Fails(f) then 1 else 0),
       failures := s.failures + (if Fails(f) then [id] else []),
       events := s.events + if f.Moved? then [(id, f.event)] else [])
  }

  function Tally(rules: nat, listed: seq<(Id, Rule)>, fates: seq<Fate>): Summary
    requires |fates| <= |listed|
    decreases |fates|
  {
    if fates == [] then Summary(rules, 0, 0, 0, 0, 0, 0, 0, [], []) else
      var n := |fates| - 1;
      Noted(Tally(rules, listed, fates[..n]), listed[n].0, fates[n])
  }

  function CountOf(fates: seq<Fate>, p: Fate -> bool): nat {
    if fates == [] then 0
    else CountOf(fates[..|fates| - 1], p) + if p(fates[|fates| - 1]) then 1 else 0
  }

  predicate IsOpening(e: Entry) {
    e.Event? && e.kind == Opened
  }

  /** The failures and the events are listed in the order of the rules. */
  lemma {:induction false} TallyLists(rules: nat, listed: seq<(Id, Rule)>, fates: seq<Fate>, i: nat)
    requires i < |fates| <= |listed|
    ensures var s := Tally(rules, listed, fates);
            && (Fails(fates[i]) ==> listed[i].0 in s.failures)
            && (fates[i].Moved? ==> (listed[i].0, fates[i].event) in s.events)
    decreases |fates|
  {
    if i < |fates| - 1 {
      TallyLists(rules, listed, fates[..|fates| - 1], i);
    }
  }

  /**
   The counters, exactly: every rule had no candidate, was evaluated or could not be looked up; every evaluated
   rule is in one bucket unless it vanished before its transition; failures are exactly the failing fates.
   */
  lemma {:induction false} TallyPartition(rules: nat, listed: seq<(Id, Rule)>, fates: seq<Fate>)
    requires |fates| <= |listed|
    ensures var s := Tally(rules, listed, fates);
            && s.rules == rules
            && |fates| == s.noCandidate + s.evaluated + CountOf(fates, (f: Fate) => f.LookupFailed?)
            && s.evaluated == s.opens + s.resolves + s.unmoved + s.skipped + CountOf(fates, (f: Fate) => f.Vanished?)
            && s.failed == |s.failures| == CountOf(fates, Fails)
            && |s.events| == s.opens + s.resolves
            && s.noCandidate == CountOf(fates, (f: Fate) => f.Untried?)
            && s.skipped == CountOf(fates, (f: Fate) => f.Passed?)
            && s.unmoved == CountOf(fates, (f: Fate) => f.Kept?)
            && s.opens == CountOf(fates, (f: Fate) => f.Moved? && IsOpening(f.event))
            && s.resolves == CountOf(fates, (f: Fate) => f.Moved? && !IsOpening(f.event))
    decreases |fates|
  {
    if fates != [] {
      TallyPartition(rules, listed, fates[..|fates| - 1]);
    }
  }

  lemma {:induction false} CountLess(fates: seq<Fate>, p: Fate -> bool, q: Fate -> bool)
    requires forall f: Fate :: p(f) ==> q(f)
    ensures CountOf(fates, p) <= CountOf(fates, q)
    decreases |fates|
  {
    if fates != [] {
      CountLess(fates[..|fates| - 1], p, q);
    }
  }

  /** An error-free evaluation puts every rule into exactly one of five counters. */
  lemma CleanTally(rules: nat, listed: seq<(Id, Rule)>, fates: seq<Fate>)
    requires |fates| <= |listed| && Tally(rules, listed, fates).failed == 0
    ensures var s := Tally(rules, listed, fates);
            |fates| == s.noCandidate + s.opens + s.resolves + s.unmoved + s.skipped
  {
    TallyPartition(rules, listed, fates);
    CountLess(fates, (f: Fate) => f.LookupFailed?, Fails);
    CountLess(fates, (f: Fate) => f.Vanished?, Fails);
  }

  // ---------------------------------------------------------------------------------------
  // What others do meanwhile

  datatype Op =
    | Evaluation(id: Id, seen: Rule, verdict: Verdict, at: int)
    | Edit(id: Id, config: Config, enabled: bool, reset: bool)
    | NewRule(id: Id, config: Config, enabled: bool)
    | Removal(id: Id)

  function Effect(t: Tables, op: Op): (r: Tables)
    requires Inv(t)
    ensures Inv(r)
  {
    match op
    case Evaluation(id, seen, verdict, at) => ActKeepsInv(t, id, seen, verdict, at); Act(t, id, seen, verdict, at)
    case Edit(id, config, enabled, reset) =>
      UpdateKeepsInv(t, id, config, enabled, reset); AlertRules.Update(t, id, config, enabled, reset)
    case NewRule(id, config, enabled) =>
      if id in t.rules then t
      else Tables(t.rules[id := Rule(config, enabled, Inactive, None)], t.history[id := []])
    case Removal(id) => Tables(t.rules - {id}, t.history - {id})
  }

  function Meanwhile(t: Tables, ops: seq<Op>): (r: Tables)
    requires Inv(t)
    ensures Inv(r)
  {
    if ops == [] then t else Effect(Meanwhile(t, ops[..|ops| - 1]), ops[|ops| - 1])
  }

  /** One evaluation: snapshots and what was learnt of each, the clock and the others' writes before each write. */
  datatype Job = Job(listed: seq<(Id, Rule)>, outcomes: seq<Outcome>, clock: nat -> int, others: nat -> seq<Op>)

  /** The tables after the first n rules, and their fates. */
  function After(t: Tables, job: Job, n: nat): (r: Tables)
    requires Inv(t) && n <= |job.listed| == |job.outcomes|
    ensures Inv(r)
  {
    if n == 0 then t else
      var i := n - 1;
      var u := Meanwhile(After(t, job, i), job.others(i));
      EvaluatedOneKeepsInv(u, job.listed[i].0, job.listed[i].1, job.outcomes[i], job.clock(i));
      EvaluatedOne(u, job.listed[i].0, job.listed[i].1, job.outcomes[i], job.clock(i))
  }

  function Fates(t: Tables, job: Job, n: nat): (r: seq<Fate>)
    requires Inv(t) && n <= |job.listed| == |job.outcomes|
    ensures |r| == n
  {
    if n == 0 then [] else
      var i := n - 1;
      var u := Meanwhile(After(t, job, i), job.others(i));
      Fates(t, job, i) + [FateOf(u, job.listed[i].0, job.listed[i].1, job.outcomes[i])]
  }

  // ---------------------------------------------------------------------------------------
  // The store and the evaluator

  class RuleStore {
    var rules: map<Id, Rule>
    var history: map<Id, seq<Entry>>

    function View(): Tables
      reads this
    {
      Tables(rules, history)
    }

    constructor ()
      ensures View() == Tables(map[], map[])
    {
      rules := map[];
      history := map[];
    }

    /** TouchAlertRuleEvaluation; a rule that no longer exists is an error. */
    method Touch(id: Id, seen: Rule, at: int) returns (ok: bool)
      requires Inv(View())
      modifies this
      ensures View() == AlertRules.Touch(old(View()), id, seen, at)
      ensures ok <==> id in old(rules)
      ensures Inv(View())
    {
      ActKeepsInv(View(), id, seen, Other, at);
      if Matches(View(), id, seen.state, seen.config) {
        rules := rules[id := rules[id].(lastEvaluated := Some(at))];
      }
      ok := id in rules;
    }

    /** TransitionAlertRule; `event` is None when the compare-and-swap found another state or configuration. */
    method Transition(id: Id, seen: Rule, verdict: Verdict, at: int) returns (ok: bool, event: Option<Entry>)
      requires Inv(View()) && verdict != Other && seen.state != Wanted(verdict)
      modifies this
      ensures View() == Act(old(View()), id, seen, verdict, at)
      ensures Inv(View())
      ensures ok <==> id in old(rules)
      ensures event.Some? <==> old(Matches(View(), id, seen.state, seen.config))
      ensures event.Some? ==> Moved(event.value) == FateOf(old(View()), id, seen, Report(verdict))
    {
      ActKeepsInv(View(), id, seen, verdict, at);
      var opening := verdict == Failing;
      if Matches(View(), id, seen.state, seen.config) {
        var e := Event(if opening then Opened else Resolved, verdict, seen.config, rules[id].config);
        rules := rules[id := rules[id].(state := if opening then Open else Inactive, lastEvaluated := Some(at))];
        history := history[id := history[id] + [e]];
        return true, Some(e);
      }
      return id in rules, None;
    }

    /** UpdateAlertRule. */
    method Update(id: Id, config: Config, enabled: bool, reset: bool) returns (found: bool)
      requires Inv(View())
      modifies this
      ensures View() == AlertRules.Update(old(View()), id, config, enabled, reset)
      ensures Inv(View()) && (found <==> id in old(rules))
      ensures found ==> id in rules && rules[id].config == config && rules[id].enabled == enabled
      ensures found && reset ==> rules[id].state == Inactive && EventsOf(history[id]) == EventsOf(old(history)[id])
      ensures found && !reset ==> rules[id].state == old(rules)[id].state && history == old(history)
      ensures OthersKept(old(View()), View(), id)
    {
      UpdateKeepsInv(View(), id, config, enabled, reset);
      found := id in rules;
      if found {
        rules := rules[id := rules[id].(config := config, enabled := enabled)];
        if reset {
          rules := rules[id := rules[id].(state := Inactive, lastEvaluated := None)];
          ResetAddsNoEvent(history[id]);
          history := history[id := history[id] + [Reset]];
        }
      }
    }

    /** Other evaluators and owners. */
    method Others(ops: seq<Op>)
      requires Inv(View())
      modifies this
      ensures View() == Meanwhile(old(View()), ops)
      ensures Inv(View())
    {
      for i := 0 to |ops|
        invariant Inv(View()) && View() == Meanwhile(old(View()), ops[..i])
      {
        var t := Effect(View(), ops[i]);
        assert ops[..i + 1][..i] == ops[..i];
        rules, history := t.rules, t.history;
      }
      assert ops[..|ops|] == ops;
    }
  }

  class Evaluator {
    const store: RuleStore
    var summary: Summary

    constructor (s: RuleStore)
      ensures store == s && summary == Tally(0, [], [])
    {
      store := s;
      summary := Summary(0, 0, 0, 0, 0, 0, 0, 0, [], []);
    }

    /** openIfNeeded and resolveIfNeeded; the caller adds a failure when `ok` is false. */
    method TransitionIfNeeded(id: Id, seen: Rule, verdict: Verdict, at: int) returns (ok: bool)
      requires Inv(store.View()) && verdict != Other
      modifies this, store
      ensures store.View() == Act(old(store.View()), id, seen, verdict, at) && Inv(store.View())
      ensures var f := FateOf(old(store.View()), id, seen, Report(verdict));
              ok == !Fails(f) && WithFailure(summary, id, !ok) == Bucketed(old(summary), id, f)
    {
      assert summary.failures + [] == summary.failures && summary.events + [] == summary.events;
      if seen.state == Wanted(verdict) {
        summary := summary.(unmoved := summary.unmoved + 1);
        ok := store.Touch(id, seen, at);
        return;
      }
      var event;
      ok, event := store.Transition(id, seen, verdict, at);
      if !ok {
        return;
      }
      match event {
        case None => summary := summary.(unmoved := summary.unmoved + 1);
        case Some(e) =>
          summary := summary.(events := summary.events + [(id, e)]);
          if verdict == Failing {
            summary := summary.(opens := summary.opens + 1);
          } else {
            summary := summary.(resolves := summary.resolves + 1);
          }
      }
    }

    /** evaluateRule: the tables and the counters follow the rule's fate on every path. */
    method EvaluateRule(id: Id, seen: Rule, outcome: Outcome, at: int) returns (ok: bool)
      requires Inv(store.View())
      modifies this, store
      ensures store.View() == EvaluatedOne(old(store.View()), id, seen, outcome, at) && Inv(store.View())
      ensures var f := FateOf(old(store.View()), id, seen, outcome);
              ok == !Fails(f) && WithFailure(summary, id, !ok) == Noted(old(summary), id, f)
    {
      assert summary.failures + [] == summary.failures && summary.events + [] == summary.events;
      match outcome {
        case NoCandidate =>
          summary := summary.(noCandidate := summary.noCandidate + 1);
          ok := store.Touch(id, seen, at);
        case LookupError =>
          ok := false;
        case Report(verdict) =>
          summary := summary.(evaluated := summary.evaluated + 1);
          if verdict == Other {
            summary := summary.(skipped := summary.skipped + 1);
            ok := store.Touch(id, seen, at);
          } else {
            ok := TransitionIfNeeded(id, seen, verdict, at);
          }
      }
    }

    /**
     Evaluate: with others writing in between, the tables are those of the statements in order, the summary counts
     the fates exactly, and it fails exactly when some rule did.
     */
    method Evaluate(job: Job) returns (ok: bool)
      requires Inv(store.View()) && |job.listed| == |job.outcomes|
      modifies this, store
      ensures store.View() == After(old(store.View()), job, |job.listed|) && Inv(store.View())
      ensures summary == Tally(|job.listed|, job.listed, Fates(old(store.View()), job, |job.listed|))
      ensures ok <==> summary.failed == 0
    {
      summary := Summary(|job.listed|, 0, 0, 0, 0, 0, 0, 0, [], []);
      for i := 0 to |job.listed|
        invariant Inv(store.View()) && store.View() == After(old(store.View()), job, i)
        invariant summary == Tally(|job.listed|, job.listed, Fates(old(store.View()), job, i))
      {
        store.Others(job.others(i));
        var id, seen := job.listed[i].0, job.listed[i].1;
        var fine := EvaluateRule(id, seen, job.outcomes[i], job.clock(i));
        summary := WithFailure(summary, id, !fine);
        assert Fates(old(store.View()), job, i + 1)[..i] == Fates(old(store.View()), job, i);
      }
      ok := summary.failed == 0;
    }
  }

  function WithFailure(s: Summary, id: Id, failing: bool): Summary {
    if failing then s.(failed := s.failed + 1, failures := s.failures + [id]) else s
  }
}
