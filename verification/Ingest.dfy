/**
 Idempotent submission (internal/service/ingest.go Submit and replaySubmission, with the
 statements of internal/db/store.go).  Any number of Submit calls interleave; each statement is
 one step.  Submit looks up the submission key, validates, gets or creates the case and the
 context, inserts the result under the unique index on submission_key, and on a conflict looks
 the key up again.
 */
module Ingest {
  import opened Options

  type Id = int
  type Hash = int

  /** The natural keys of the two tables a fingerprint draws on. */
  datatype EntityKey = CaseKey(k: int) | ContextKey(k: int)

  /** A request; `key` is None for an empty submission key, `hash` the canonical payload hash. */
  datatype Request = Request(
    key: Option<int>, hash: Hash, valid: bool, runId: int, caseKey: int, contextKey: int, hardwareHash: int, repo: int)

  /** A stored result with the columns its fingerprint was computed from. */
  datatype Row = Row(
    key: Option<int>, hash: Hash, runId: int, caseId: Id, contextId: Id, hardwareHash: int, repo: int, fingerprint: int)

  /** HistoryFingerprint(caseID, contextID, hardware hash, repository). */
  datatype Config = Config(requests: seq<Request>, fingerprint: (Id, Id, int, int) -> int)

  datatype Phase =
    | Lookup
    | SelectCase | InsertCase | ReselectCase
    | SelectContext(caseId: Id) | InsertContext(caseId: Id) | ReselectContext(caseId: Id)
    | InsertResult(caseId: Id, contextId: Id)
    | Relookup
    | Ok(id: Id, runId: int, fingerprint: int)
    | Conflict | Invalid | Broken

  datatype State = State(entities: map<Id, EntityKey>, results: map<Id, Row>, phases: seq<Phase>)

  // ---------------------------------------------------------------------------------------
  // Statements

  predicate HasEntity(entities: map<Id, EntityKey>, key: EntityKey) {
    exists a | a in entities :: entities[a] == key
  }

  predicate HasResult(results: map<Id, Row>, key: Option<int>) {
    key.Some? && exists r | r in results :: results[r].key == key
  }

  /** replaySubmission. */
  function Replay(id: Id, row: Row, hash: Hash): Phase {
    if row.hash != hash then Conflict else Ok(id, row.runId, row.fingerprint)
  }

  // ---------------------------------------------------------------------------------------
  // Steps: `id` is the row a select found or the fresh id of an insert

  datatype Step = Hit(p: nat, id: Id) | Miss(p: nat) | Insert(p: nat, id: Id)

  /** The row a select of this phase looks for. */
  predicate Finds(c: Config, s: State, p: nat, id: Id)
    requires p < |s.phases| == |c.requests|
  {
    var req := c.requests[p];
    match s.phases[p]
    case Lookup => req.key.Some? && id in s.results && s.results[id].key == req.key
    case Relookup => req.key.Some? && id in s.results && s.results[id].key == req.key
    case SelectCase => id in s.entities && s.entities[id] == CaseKey(req.caseKey)
    case ReselectCase => id in s.entities && s.entities[id] == CaseKey(req.caseKey)
    case SelectContext(_) => id in s.entities && s.entities[id] == ContextKey(req.contextKey)
    case ReselectContext(_) => id in s.entities && s.entities[id] == ContextKey(req.contextKey)
    case _ => false
  }

  predicate Misses(c: Config, s: State, p: nat)
    requires p < |s.phases| == |c.requests|
  {
    var req := c.requests[p];
    match s.phases[p]
    case Lookup => !HasResult(s.results, req.key)
    case Relookup => !HasResult(s.results, req.key)
    case SelectCase => !HasEntity(s.entities, CaseKey(req.caseKey))
    case ReselectCase => !HasEntity(s.entities, CaseKey(req.caseKey))
    case SelectContext(_) => !HasEntity(s.entities, ContextKey(req.contextKey))
    case ReselectContext(_) => !HasEntity(s.entities, ContextKey(req.contextKey))
    case _ => false
  }

  predicate Enabled(c: Config, s: State, step: Step) {
    && |s.phases| == |c.requests|
    && step.p < |s.phases|
    && match step
       case Hit(p, id) => Finds(c, s, p, id)
       case Miss(p) => Misses(c, s, p)
       case Insert(p, id) =>
         match s.phases[p]
         case InsertCase => id !in s.entities
         case InsertContext(_) => id !in s.entities
         case InsertResult(_, _) => id !in s.results
         case _ => false
  }

  function Apply(c: Config, s: State, step: Step): State
    requires Enabled(c, s, step)
  {
    var req := c.requests[step.p];
    match step
    case Hit(p, id) =>
      s.(phases := s.phases[p :=
           match s.phases[p]
           case SelectCase => SelectContext(id)
           case ReselectCase => SelectContext(id)
           case SelectContext(caseId) => InsertResult(caseId, id)
           case ReselectContext(caseId) => InsertResult(caseId, id)
           case _ => if id in s.results then Replay(id, s.results[id], req.hash) else Broken])
    case Miss(p) =>
      s.(phases := s.phases[p :=
           match s.phases[p]
           case Lookup => if req.valid then SelectCase else Invalid
           case SelectCase => InsertCase
           case SelectContext(caseId) => InsertContext(caseId)
           case _ => Broken])
    case Insert(p, id) =>
      match s.phases[p]
      case InsertCase =>
        if HasEntity(s.entities, CaseKey(req.caseKey)) then s.(phases := s.phases[p := ReselectCase])
        else s.(entities := s.entities[id := CaseKey(req.caseKey)], phases := s.phases[p := SelectContext(id)])
      case InsertContext(caseId) =>
        if HasEntity(s.entities, ContextKey(req.contextKey)) then s.(phases := s.phases[p := ReselectContext(caseId)])
        else s.(entities := s.entities[id := ContextKey(req.contextKey)],
            phases := s.phases[p := InsertResult(caseId, id)])
      case InsertResult(caseId, contextId) =>
        // benchmark_result_submission_key_index: unique where submission_key is not null
        if HasResult(s.results, req.key) then s.(phases := s.phases[p := Relookup])
        else
          var fp := c.fingerprint(caseId, contextId, req.hardwareHash, req.repo);
          var row := Row(req.key, req.hash, req.runId, caseId, contextId, req.hardwareHash, req.repo, fp);
          s.(results := s.results[id := row],
             phases := s.phases[p := Ok(id, req.runId, fp)])
  }

  predicate CanRun(c: Config, s: State, steps: seq<Step>)
    decreases steps
  {
    steps == [] || (Enabled(c, s, steps[0]) && CanRun(c, Apply(c, s, steps[0]), steps[1..]))
  }

  function Run(c: Config, s: State, steps: seq<Step>): State
    requires CanRun(c, s, steps)
    decreases steps
  {
    if steps == [] then s else Run(c, Apply(c, s, steps[0]), steps[1..])
  }

  // ---------------------------------------------------------------------------------------
  // The invariant

  predicate UniqueEntities(s: State) {
    forall a, b | a in s.entities && b in s.entities && s.entities[a] == s.entities[b] :: a == b
  }

  /** The unique index: at most one row per submission key. */
  predicate UniqueSubmissions(s: State) {
    forall a, b | a in s.results && b in s.results && s.results[a].key.Some? && s.results[a].key == s.results[b].key ::
      a == b
  }

  predicate IsCase(c: Config, s: State, p: nat, id: Id)
    requires p < |c.requests|
  {
    id in s.entities && s.entities[id] == CaseKey(c.requests[p].caseKey)
  }

  predicate IsContext(c: Config, s: State, p: nat, id: Id)
    requires p < |c.requests|
  {
    id in s.entities && s.entities[id] == ContextKey(c.requests[p].contextKey)
  }

  /** What a caller's phase says about the tables. */
  predicate PhaseOk(c: Config, s: State, p: nat)
    requires p < |s.phases| == |c.requests|
  {
    var req := c.requests[p];
    match s.phases[p]
    case SelectContext(caseId) => IsCase(c, s, p, caseId)
    case InsertContext(caseId) => IsCase(c, s, p, caseId)
    case ReselectCase => HasEntity(s.entities, CaseKey(req.caseKey))
    case ReselectContext(caseId) => IsCase(c, s, p, caseId) && HasEntity(s.entities, ContextKey(req.contextKey))
    case InsertResult(caseId, contextId) => IsCase(c, s, p, caseId) && IsContext(c, s, p, contextId)
    case Relookup => HasResult(s.results, req.key)
    case Ok(id, runId, fp) =>
      && id in s.results && s.results[id].runId == runId && s.results[id].fingerprint == fp
      && s.results[id].key == req.key && s.results[id].hash == req.hash
    case Conflict => exists r | r in s.results ::
        s.results[r].key == req.key && req.key.Some? && s.results[r].hash != req.hash
    case Broken => false
    case _ => true
  }

  predicate PhasesOk(c: Config, s: State) {
    && |s.phases| == |c.requests|
    && forall p | 0 <= p < |s.phases| :: PhaseOk(c, s, p)
  }

  predicate Inv(c: Config, s: State) {
    UniqueEntities(s) && UniqueSubmissions(s) && PhasesOk(c, s)
  }

  /** Tables only grow. */
  predicate Grows(s: State, t: State) {
    && s.entities.Keys <= t.entities.Keys && (forall a | a in s.entities :: t.entities[a] == s.entities[a])
    && s.results.Keys <= t.results.Keys && (forall r | r in s.results :: t.results[r] == s.results[r])
  }

  lemma PhaseStays(c: Config, s: State, t: State, p: nat)
    requires p < |s.phases| == |c.requests| == |t.phases|
    requires Grows(s, t) && t.phases[p] == s.phases[p] && PhaseOk(c, s, p)
    ensures PhaseOk(c, t, p)
  {
    var req := c.requests[p];
    if s.phases[p].ReselectCase? {
      var a :| a in s.entities && s.entities[a] == CaseKey(req.caseKey);
      assert t.entities[a] == s.entities[a];
    } else if s.phases[p].ReselectContext? {
      var a :| a in s.entities && s.entities[a] == ContextKey(req.contextKey);
      assert t.entities[a] == s.entities[a];
    } else if s.phases[p].Relookup? {
      var r :| r in s.results && s.results[r].key == req.key;
      assert t.results[r] == s.results[r];
    } else if s.phases[p].Conflict? {
      var r :| r in s.results && s.results[r].key == req.key && req.key.Some? && s.results[r].hash != req.hash;
      assert t.results[r] == s.results[r];
    }
  }

  lemma StepKeepsUnique(c: Config, s: State, step: Step)
    requires Inv(c, s) && Enabled(c, s, step)
    ensures UniqueEntities(Apply(c, s, step)) && UniqueSubmissions(Apply(c, s, step))
    ensures Grows(s, Apply(c, s, step))
  {
  }

  lemma StepKeepsOwnPhase(c: Config, s: State, step: Step)
    requires Inv(c, s) && Enabled(c, s, step)
    ensures |Apply(c, s, step).phases| == |c.requests| && PhaseOk(c, Apply(c, s, step), step.p)
  {
    assert PhaseOk(c, s, step.p);
  }

  lemma StepKeepsInv(c: Config, s: State, step: Step)
    requires Inv(c, s) && Enabled(c, s, step)
    ensures Inv(c, Apply(c, s, step))
  {
    StepKeepsUnique(c, s, step);
    StepKeepsOwnPhase(c, s, step);
    var t := Apply(c, s, step);
    forall p | 0 <= p < |t.phases| ensures PhaseOk(c, t, p) {
      if p != step.p {
        PhaseStays(c, s, t, p);
      }
    }
  }

  lemma {:induction false} RunKeepsInv(c: Config, s: State, steps: seq<Step>)
    requires Inv(c, s) && CanRun(c, s, steps)
    ensures Inv(c, Run(c, s, steps))
    decreases steps
  {
    if steps != [] {
      StepKeepsInv(c, s, steps[0]);
      RunKeepsInv(c, Apply(c, s, steps[0]), steps[1..]);
    }
  }

  // ---------------------------------------------------------------------------------------
  // What idempotent submission promises

  predicate Start(c: Config, s: State) {
    && UniqueSubmissions(s) && UniqueEntities(s)
    && |s.phases| == |c.requests|
    && forall p | 0 <= p < |s.phases| :: s.phases[p].Lookup?
  }

  /**
   Over every interleaving: at most one row per submission key; successful submissions of one key
   return the same id, run id and fingerprint; each carries the stored payload hash; and no
   lookup, select or insert ends in an internal error.
   */
  lemma SubmissionsAgree(c: Config, s: State, steps: seq<Step>, p: nat, q: nat)
    requires Start(c, s) && CanRun(c, s, steps)
    requires p < |c.requests| && q < |c.requests|
    requires c.requests[p].key.Some? && c.requests[p].key == c.requests[q].key
    ensures var t := Run(c, s, steps);
            && UniqueSubmissions(t)
            && |t.phases| == |c.requests| && !t.phases[p].Broken?
            && (t.phases[p].Ok? && t.phases[q].Ok? ==>
                  t.phases[p] == t.phases[q] && c.requests[p].hash == c.requests[q].hash)
            && (t.phases[p].Ok? ==>
                  t.phases[p].id in t.results && t.results[t.phases[p].id].hash == c.requests[p].hash)
  {
    RunKeepsInv(c, s, steps);
    var t := Run(c, s, steps);
    assert PhaseOk(c, t, p) && PhaseOk(c, t, q);
  }

  predicate Finished(ph: Phase) {
    ph.Ok? || ph.Conflict? || ph.Invalid? || ph.Broken?
  }

  lemma {:induction false} RunGrows(c: Config, s: State, steps: seq<Step>)
    requires Inv(c, s) && CanRun(c, s, steps)
    ensures Grows(s, Run(c, s, steps))
    decreases steps
  {
    if steps != [] {
      StepKeepsInv(c, s, steps[0]);
      StepKeepsUnique(c, s, steps[0]);
      RunGrows(c, Apply(c, s, steps[0]), steps[1..]);
    }
  }

  /** Once a row holds the key, a request with another payload can end only in the conflict error (or invalid). */
  lemma OtherPayloadConflicts(c: Config, s: State, steps: seq<Step>, p: nat, r: Id)
    requires Inv(c, s) && CanRun(c, s, steps)
    requires p < |c.requests| && r in s.results && c.requests[p].key.Some?
    requires s.results[r].key == c.requests[p].key && s.results[r].hash != c.requests[p].hash
    ensures var t := Run(c, s, steps);
            && |t.phases| == |c.requests|
            && (Finished(t.phases[p]) ==> t.phases[p].Conflict? || t.phases[p].Invalid?)
            && (Finished(t.phases[p]) && c.requests[p].valid && !s.phases[p].Invalid? ==> t.phases[p].Conflict?)
  {
    RunKeepsInv(c, s, steps);
    RunGrows(c, s, steps);
    var t := Run(c, s, steps);
    assert PhaseOk(c, t, p);
    if c.requests[p].valid && !s.phases[p].Invalid? {
      ValidStaysValid(c, s, steps, p);
    }
  }

  lemma {:induction false} ValidStaysValid(c: Config, s: State, steps: seq<Step>, p: nat)
    requires Inv(c, s) && CanRun(c, s, steps) && p < |c.requests|
    requires c.requests[p].valid && !s.phases[p].Invalid?
    ensures |Run(c, s, steps).phases| == |c.requests| && !Run(c, s, steps).phases[p].Invalid?
    decreases steps
  {
    if steps != [] {
      StepKeepsInv(c, s, steps[0]);
      ValidStaysValid(c, Apply(c, s, steps[0]), steps[1..], p);
    }
  }

  function Rank(ph: Phase): nat {
    match ph
    case Lookup => 9 case SelectCase => 8 case InsertCase => 7 case ReselectCase => 6
    case SelectContext(_) => 5 case InsertContext(_) => 4 case ReselectContext(_) => 3
    case InsertResult(_, _) => 2 case Relookup => 1 case _ => 0
  }

  /** Every unfinished submission can take its next statement, and gets strictly closer to its end. */
  lemma SubmitProgresses(c: Config, s: State, p: nat, newId: Id) returns (step: Step)
    requires Inv(c, s) && p < |c.requests| && !Finished(s.phases[p])
    requires newId !in s.entities && newId !in s.results
    ensures step.p == p && Enabled(c, s, step)
    ensures Rank(Apply(c, s, step).phases[p]) < Rank(s.phases[p])
  {
    var ph := s.phases[p];
    if ph.InsertCase? || ph.InsertContext? || ph.InsertResult? {
      step := Insert(p, newId);
    } else if (ph.Lookup? || ph.Relookup?) && HasResult(s.results, c.requests[p].key) {
      var id :| id in s.results && s.results[id].key == c.requests[p].key;
      step := Hit(p, id);
    } else if ph.Lookup? || ph.Relookup? {
      step := Miss(p);
    } else {
      var key := if ph.SelectCase? || ph.ReselectCase? then CaseKey(c.requests[p].caseKey)
                 else ContextKey(c.requests[p].contextKey);
      if HasEntity(s.entities, key) {
        var id :| id in s.entities && s.entities[id] == key;
        step := Hit(p, id);
      } else {
        step := Miss(p);
      }
    }
  }

  // ---------------------------------------------------------------------------------------
  // One fingerprint per case, context, hardware hash and repository

  predicate SameSeries(a: Request, b: Request) {
    a.caseKey == b.caseKey && a.contextKey == b.contextKey && a.hardwareHash == b.hardwareHash && a.repo == b.repo
  }

  /** A payload hash stands for the payload: keyed requests with equal hashes are of one series and one run. */
  predicate HashesTell(c: Config) {
    forall p, q | 0 <= p < |c.requests| && 0 <= q < |c.requests| && c.requests[p].key.Some? && c.requests[q].key.Some?
                  && c.requests[p].hash == c.requests[q].hash ::
      SameSeries(c.requests[p], c.requests[q]) && c.requests[p].runId == c.requests[q].runId
  }

  /** The row's columns are those of request p. */
  predicate RowOf(c: Config, s: State, row: Row, p: nat)
    requires p < |c.requests|
  {
    SeriesOf(c, s, row, p) && row.runId == c.requests[p].runId
  }

  /** The row is of request p's series. */
  predicate SeriesOf(c: Config, s: State, row: Row, p: nat)
    requires p < |c.requests|
  {
    && IsCase(c, s, p, row.caseId) && IsContext(c, s, p, row.contextId)
    && row.hardwareHash == c.requests[p].hardwareHash && row.repo == c.requests[p].repo
  }

  /**
   What holds of every stored row: its fingerprint is that of its columns, and a keyed row with the hash of
   a keyed request has that request's columns.
   */
  predicate RowsOk(c: Config, s: State) {
    && (forall r | r in s.results ::
          var row := s.results[r];
          row.fingerprint == c.fingerprint(row.caseId, row.contextId, row.hardwareHash, row.repo))
    && (forall r, p | r in s.results && 0 <= p < |c.requests| && s.results[r].key.Some? && c.requests[p].key.Some?
                      && s.results[r].hash == c.requests[p].hash ::
          RowOf(c, s, s.results[r], p))
  }

  /** A successful call returned the fingerprint of a row with its own columns. */
  predicate AnswersOk(c: Config, s: State) {
    && |s.phases| == |c.requests|
    && forall p | 0 <= p < |s.phases| && s.phases[p].Ok? ::
         s.phases[p].id in s.results && RowOf(c, s, s.results[s.phases[p].id], p)
  }

  lemma StepKeepsRows(c: Config, s: State, step: Step)
    requires Inv(c, s) && HashesTell(c) && RowsOk(c, s) && Enabled(c, s, step)
    ensures RowsOk(c, Apply(c, s, step))
  {
    StepKeepsUnique(c, s, step);
    assert PhaseOk(c, s, step.p);
    var t := Apply(c, s, step);
    forall r, p | r in t.results && 0 <= p < |c.requests| && t.results[r].key.Some? && c.requests[p].key.Some?
                  && t.results[r].hash == c.requests[p].hash
      ensures RowOf(c, t, t.results[r], p)
    {
      if r in s.results {
        assert RowOf(c, s, s.results[r], p);
      } else {
        assert SameSeries(c.requests[p], c.requests[step.p]);
      }
    }
  }

  lemma StepKeepsAnswers(c: Config, s: State, step: Step)
    requires Inv(c, s) && RowsOk(c, s) && AnswersOk(c, s) && Enabled(c, s, step)
    ensures AnswersOk(c, Apply(c, s, step))
  {
    StepKeepsUnique(c, s, step);
    assert PhaseOk(c, s, step.p);
    var t := Apply(c, s, step);
    forall p | 0 <= p < |t.phases| && t.phases[p].Ok?
      ensures t.phases[p].id in t.results && RowOf(c, t, t.results[t.phases[p].id], p)
    {
      if p != step.p {
        assert RowOf(c, s, s.results[s.phases[p].id], p);
      }
    }
  }

  lemma {:induction false} RunKeepsAnswers(c: Config, s: State, steps: seq<Step>)
    requires Inv(c, s) && HashesTell(c) && RowsOk(c, s) && AnswersOk(c, s) && CanRun(c, s, steps)
    ensures RowsOk(c, Run(c, s, steps)) && AnswersOk(c, Run(c, s, steps))
    decreases steps
  {
    if steps != [] {
      StepKeepsInv(c, s, steps[0]);
      StepKeepsRows(c, s, steps[0]);
      StepKeepsAnswers(c, s, steps[0]);
      RunKeepsAnswers(c, Apply(c, s, steps[0]), steps[1..]);
    }
  }

  /**
   Over any stored results and every interleaving, successful submissions of one case, context, hardware
   hash and repository return the same fingerprint, whether they inserted or replayed, with a key or without.
   */
  lemma OneFingerprintPerSeries(c: Config, s: State, steps: seq<Step>, p: nat, q: nat)
    requires Start(c, s) && HashesTell(c) && RowsOk(c, s) && CanRun(c, s, steps)
    requires p < |c.requests| && q < |c.requests| && SameSeries(c.requests[p], c.requests[q])
    ensures var t := Run(c, s, steps);
            && |t.phases| == |c.requests|
            && (t.phases[p].Ok? && t.phases[q].Ok? ==> t.phases[p].fingerprint == t.phases[q].fingerprint)
  {
    RunKeepsInv(c, s, steps);
    RunKeepsAnswers(c, s, steps);
    var t := Run(c, s, steps);
    assert PhaseOk(c, t, p) && PhaseOk(c, t, q);
  }

  /**
   What a successful submission returns is its own: the id of a stored row with its key and hash, its run id, and the
   fingerprint of its case, context, hardware hash and repository.
   */
  lemma AnswerIsOwn(c: Config, s: State, steps: seq<Step>, p: nat)
    requires Start(c, s) && HashesTell(c) && RowsOk(c, s) && CanRun(c, s, steps) && p < |c.requests|
    ensures var t := Run(c, s, steps);
            && |t.phases| == |c.requests|
            && (t.phases[p].Ok? ==>
                  && t.phases[p].id in t.results && t.results[t.phases[p].id].key == c.requests[p].key
                  && t.results[t.phases[p].id].hash == c.requests[p].hash
                  && t.phases[p].runId == c.requests[p].runId
                  && exists caseId, contextId ::
                       && IsCase(c, t, p, caseId) && IsContext(c, t, p, contextId)
                       && t.phases[p].fingerprint
                          == c.fingerprint(caseId, contextId, c.requests[p].hardwareHash, c.requests[p].repo))
  {
    RunKeepsInv(c, s, steps);
    RunKeepsAnswers(c, s, steps);
    var t := Run(c, s, steps);
    assert PhaseOk(c, t, p);
    if t.phases[p].Ok? {
      var row := t.results[t.phases[p].id];
      assert RowOf(c, t, row, p);
    }
  }

  /** An invalid request gets no further than its lookup. */
  predicate Refused(c: Config, s: State) {
    && |s.phases| == |c.requests|
    && forall p | 0 <= p < |s.phases| && !c.requests[p].valid ::
         || s.phases[p].Lookup? || s.phases[p].Invalid?
         || (c.requests[p].key.Some? && (s.phases[p].Ok? || s.phases[p].Conflict?))
  }

  /**
   Invalid requests never insert: such a call ends in the validation error, unless its key is already stored and it is
   replayed or conflicts.
   */
  lemma {:induction false} InvalidNeverInserts(c: Config, s: State, steps: seq<Step>)
    requires Inv(c, s) && Refused(c, s) && CanRun(c, s, steps)
    ensures Refused(c, Run(c, s, steps))
    decreases steps
  {
    if steps != [] {
      StepKeepsInv(c, s, steps[0]);
      InvalidNeverInserts(c, Apply(c, s, steps[0]), steps[1..]);
    }
  }

  /** And it is the fingerprint of every stored row of that series, new or old. */
  lemma StoredRowsShareFingerprint(c: Config, s: State, steps: seq<Step>, p: nat, r: Id)
    requires Start(c, s) && HashesTell(c) && RowsOk(c, s) && CanRun(c, s, steps)
    requires p < |c.requests| && p < |Run(c, s, steps).phases| && Run(c, s, steps).phases[p].Ok?
    requires r in Run(c, s, steps).results && SeriesOf(c, Run(c, s, steps), Run(c, s, steps).results[r], p)
    ensures Run(c, s, steps).results[r].fingerprint == Run(c, s, steps).phases[p].fingerprint
  {
    RunKeepsInv(c, s, steps);
    RunKeepsAnswers(c, s, steps);
    assert PhaseOk(c, Run(c, s, steps), p);
  }
}
