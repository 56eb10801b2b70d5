/**
 The CI report's summary, status and runs (internal/service/ci_report.go) and the filter that alert
 evaluation puts in front of them (automatedAlertReport, internal/service/alerts.go).
 */
module CiReport {
  import opened Options
  import opened CiRows

  datatype Summary = Summary(
    runs: nat, missingRuns: nat, contenderResults: nat, compared: nat, analyzed: nat, regressions: nat,
    improvements: nat, benchmarkErrors: nat, missingBaseline: nat, notComparable: nat, commitlessRuns: nat,
    baselineErrors: nat, baselineActionErrors: nat, insufficient: nat, stable: nat)

  datatype ReportStatus = Success | Failing | ActionRequired | Skipped

  datatype Run = Run(id: Id, comparisons: seq<Comparison>)

  // ---------------------------------------------------------------------------------------
  // Every comparison is in exactly one bucket

  function CountOf(comparisons: seq<Comparison>, status: Status): nat {
    if comparisons == [] then 0 else
      var n := |comparisons| - 1;
      CountOf(comparisons[..n], status) + if comparisons[n].status == status then 1 else 0
  }

  lemma {:induction false} CountPositiveIff(comparisons: seq<Comparison>, status: Status)
    ensures CountOf(comparisons, status) > 0 <==> exists c | c in comparisons :: c.status == status
    decreases |comparisons|
  {
    if comparisons != [] {
      var n := |comparisons| - 1;
      CountPositiveIff(comparisons[..n], status);
      assert comparisons[n] in comparisons;
      assert forall c | c in comparisons :: c == comparisons[n] || c in comparisons[..n];
    }
  }

  lemma {:induction false} CountsSum(comparisons: seq<Comparison>)
    ensures CountOf(comparisons, Errored) + CountOf(comparisons, MissingBaseline) + CountOf(comparisons, NotComparable)
            + CountOf(comparisons, Insufficient) + CountOf(comparisons, Regressed) + CountOf(comparisons, Improved)
            + CountOf(comparisons, Stable) == |comparisons|
    decreases |comparisons|
  {
    if comparisons != [] {
      CountsSum(comparisons[..|comparisons| - 1]);
    }
  }

  /** The summary with the comparisons' counts added. */
  function Tallied(s: Summary, comparisons: seq<Comparison>): Summary {
    var regressed, improved, stable, insufficient := CountOf(comparisons, Regressed), CountOf(comparisons, Improved),
      CountOf(comparisons, Stable), CountOf(comparisons, Insufficient);
    s.(benchmarkErrors := s.benchmarkErrors + CountOf(comparisons, Errored),
       missingBaseline := s.missingBaseline + CountOf(comparisons, MissingBaseline),
       notComparable := s.notComparable + CountOf(comparisons, NotComparable),
       insufficient := s.insufficient + insufficient,
       regressions := s.regressions + regressed,
       improvements := s.improvements + improved,
       stable := s.stable + stable,
       compared := s.compared + insufficient + regressed + improved + stable,
       analyzed := s.analyzed + regressed + improved + stable)
  }

  /** What does not come from the comparisons. */
  function Base(s: Summary): Summary {
    Summary(s.runs, s.missingRuns, 0, 0, 0, 0, 0, 0, 0, 0,
            s.commitlessRuns, s.baselineErrors, s.baselineActionErrors, 0, 0)
  }

  /** The summary of a report that consists of these comparisons. */
  function Derived(base: Summary, comparisons: seq<Comparison>): Summary {
    Tallied(Base(base).(contenderResults := |comparisons|), comparisons)
  }

  lemma BucketsPartition(base: Summary, comparisons: seq<Comparison>)
    ensures var s := Derived(base, comparisons);
            && s.benchmarkErrors + s.missingBaseline + s.notComparable + s.compared == |comparisons|
            && s.contenderResults == |comparisons|
            && s.analyzed + s.insufficient == s.compared
            && s.regressions + s.improvements + s.stable == s.analyzed
  {
    CountsSum(comparisons);
  }

  ghost function With(comparisons: seq<Comparison>, status: Status): set<int> {
    set i | 0 <= i < |comparisons| && comparisons[i].status == status
  }

  lemma {:induction false} CountIsSize(comparisons: seq<Comparison>, status: Status)
    ensures CountOf(comparisons, status) == |With(comparisons, status)|
    decreases |comparisons|
  {
    if comparisons == [] {
      assert With(comparisons, status) == {};
    } else {
      var n := |comparisons| - 1;
      CountIsSize(comparisons[..n], status);
      var rest := With(comparisons[..n], status);
      assert n !in rest;
      if comparisons[n].status == status {
        assert forall i :: i in With(comparisons, status) <==> i in rest + {n};
        assert With(comparisons, status) == rest + {n};
      } else {
        assert forall i :: i in With(comparisons, status) <==> i in rest;
        assert With(comparisons, status) == rest;
      }
    }
  }

  /** Each counter is the number of comparisons with its status. */
  lemma CountersMeaning(base: Summary, comparisons: seq<Comparison>)
    ensures var s := Derived(base, comparisons);
            && s.runs == base.runs && s.missingRuns == base.missingRuns && s.commitlessRuns == base.commitlessRuns
            && s.baselineErrors == base.baselineErrors && s.baselineActionErrors == base.baselineActionErrors
            && s.benchmarkErrors == |With(comparisons, Errored)|
            && s.missingBaseline == |With(comparisons, MissingBaseline)|
            && s.notComparable == |With(comparisons, NotComparable)|
            && s.insufficient == |With(comparisons, Insufficient)|
            && s.regressions == |With(comparisons, Regressed)|
            && s.improvements == |With(comparisons, Improved)|
            && s.stable == |With(comparisons, Stable)|
  {
    CountIsSize(comparisons, Errored);
    CountIsSize(comparisons, MissingBaseline);
    CountIsSize(comparisons, NotComparable);
    CountIsSize(comparisons, Insufficient);
    CountIsSize(comparisons, Regressed);
    CountIsSize(comparisons, Improved);
    CountIsSize(comparisons, Stable);
  }

  /**
   From the stored results to the buckets: when the report counts its contender results in the table, the
   buckets add up to that count exactly if no run with results is both a contender and a baseline.
   */
  lemma BucketsMatchContendersIff(
    table: seq<Result>, selections: Selections, first: seq<Result>, second: seq<Result>, compare: Compare,
    base: Summary)
    requires IsTable(table)
    requires IsSelected(table, ContenderKeys(selections), BaselineKeys(selections), first, second)
    requires Assembled(RowsWith(first + second, ContenderKeys(selections)), first + second, selections, compare).Some?
    ensures var rows := first + second;
            var comparisons := Assembled(RowsWith(rows, ContenderKeys(selections)), rows, selections, compare).value;
            var s := Tallied(Base(base).(contenderResults := CountRows(table, ContenderKeys(selections))), comparisons);
            s.benchmarkErrors + s.missingBaseline + s.notComparable + s.compared == s.contenderResults
            <==> !Overlap(table, ContenderKeys(selections), BaselineKeys(selections))
  {
    var rows := first + second;
    var comparisons := Assembled(RowsWith(rows, ContenderKeys(selections)), rows, selections, compare).value;
    CountsSum(comparisons);
    CountsAgreeIff(table, ContenderKeys(selections), BaselineKeys(selections), first, second);
  }

  /** Run 2 is a contender and the baseline of run 1; each has one result of the same series. */
  const SHARED_TABLE: seq<Result> := [
    Result(1, 1, Some(1), 5, 0, false, false), Result(2, 2, Some(1), 5, 0, false, false)]

  const SHARED_SELECTIONS: Selections := map[1 := Selection(Some(1), Some((2, 1))), 2 := Selection(Some(1), None)]

  lemma SharedRows()
    ensures IsTable(SHARED_TABLE)
    ensures IsSelected(SHARED_TABLE, ContenderKeys(SHARED_SELECTIONS), BaselineKeys(SHARED_SELECTIONS),
                       SHARED_TABLE, [SHARED_TABLE[1]])
    ensures Overlap(SHARED_TABLE, ContenderKeys(SHARED_SELECTIONS), BaselineKeys(SHARED_SELECTIONS))
  {
    var contenders, baselines := ContenderKeys(SHARED_SELECTIONS), BaselineKeys(SHARED_SELECTIONS);
    var a, b := SHARED_TABLE[0], SHARED_TABLE[1];
    assert 1 in SHARED_SELECTIONS && 2 in SHARED_SELECTIONS;
    assert (1, 1) in contenders && (2, 1) in contenders && (2, 1) in baselines;
    assert forall key :: key in contenders ==> key == (1, 1) || key == (2, 1);
    assert forall key :: key in baselines ==> key == (2, 1);
    RowsWithAll(SHARED_TABLE, contenders);
    assert KeyIn(b, baselines) && IsNewest(SHARED_TABLE, (2, 1), 5, b) && HasFingerprint(SHARED_TABLE, contenders, 5);
    forall r ensures r in [b] <==> IsBaselineRow(SHARED_TABLE, contenders, baselines, r) {
    }
  }

  /** Two contender results, three comparisons: the buckets do not add up to the contender results. */
  lemma SharedRunIsComparedTwice(compare: Compare, base: Summary)
    requires forall x, y :: !compare(x, y).Failure?
    ensures var contenders := ContenderKeys(SHARED_SELECTIONS);
            var rows := SHARED_TABLE + [SHARED_TABLE[1]];
            var made := Assembled(RowsWith(rows, contenders), rows, SHARED_SELECTIONS, compare);
            && made.Some?
            && var s := Tallied(Base(base).(contenderResults := CountRows(SHARED_TABLE, contenders)), made.value);
            && s.contenderResults == 2
            && s.benchmarkErrors + s.missingBaseline + s.notComparable + s.compared != s.contenderResults
  {
    SharedRows();
    var contenders := ContenderKeys(SHARED_SELECTIONS);
    var rows := SHARED_TABLE + [SHARED_TABLE[1]];
    AssembledFailsIff(RowsWith(rows, contenders), rows, SHARED_SELECTIONS, compare);
    RowsWithAll(SHARED_TABLE, contenders);
    BucketsMatchContendersIff(SHARED_TABLE, SHARED_SELECTIONS, SHARED_TABLE, [SHARED_TABLE[1]], compare, base);
  }

  // ---------------------------------------------------------------------------------------
  // Status

  function DeriveStatus(s: Summary): ReportStatus {
    if s.missingRuns > 0 || s.commitlessRuns > 0 || s.contenderResults == 0 || s.benchmarkErrors > 0
       || s.baselineActionErrors > 0 then ActionRequired
    else if s.regressions > 0 then Failing
    else if s.analyzed == 0 then Skipped
    else Success
  }

  /** deriveStatusReason's answers; NothingLeft is the alert filter's own. */
  datatype Reason =
    | RunsNotFound | NoCommitMetadata | NoResults | ErrorsToInspect | BaselineIncomplete | ActionNeeded
    | RegressionDetected | TooLittleHistory | NoRegressions | NothingLeft

  function DeriveReason(status: ReportStatus, s: Summary): Reason {
    match status
    case ActionRequired =>
      if s.missingRuns > 0 then RunsNotFound
      else if s.commitlessRuns > 0 then NoCommitMetadata
      else if s.contenderResults == 0 then NoResults
      else if s.benchmarkErrors > 0 then ErrorsToInspect
      else if s.baselineActionErrors > 0 then BaselineIncomplete
      else ActionNeeded
    case Failing => RegressionDetected
    case Skipped => TooLittleHistory
    case Success => NoRegressions
  }

  /** The reason names the first thing wrong, and so tells the status; the fallback is never given. */
  lemma ReasonMeaning(s: Summary)
    ensures var status := DeriveStatus(s);
            var reason := DeriveReason(status, s);
            && (reason == RunsNotFound <==> s.missingRuns > 0)
            && (reason == NoCommitMetadata <==> s.missingRuns == 0 && s.commitlessRuns > 0)
            && (reason == NoResults <==> s.missingRuns == 0 && s.commitlessRuns == 0 && s.contenderResults == 0)
            && (reason == ErrorsToInspect <==>
                s.missingRuns == 0 && s.commitlessRuns == 0 && s.contenderResults > 0 && s.benchmarkErrors > 0)
            && (reason == BaselineIncomplete <==>
                s.missingRuns == 0 && s.commitlessRuns == 0 && s.contenderResults > 0 && s.benchmarkErrors == 0
                && s.baselineActionErrors > 0)
            && (reason == RegressionDetected <==> status == Failing)
            && (reason == TooLittleHistory <==> status == Skipped)
            && (reason == NoRegressions <==> status == Success)
            && reason != ActionNeeded && reason != NothingLeft
  {
  }

  predicate Sound(base: Summary) {
    base.missingRuns == 0 && base.commitlessRuns == 0 && base.baselineActionErrors == 0
  }

  ghost predicate Occurs(comparisons: seq<Comparison>, status: Status) {
    exists c | c in comparisons :: c.status == status
  }

  /** The status in terms of the comparisons themselves. */
  lemma StatusMeaning(base: Summary, comparisons: seq<Comparison>)
    ensures var status := DeriveStatus(Derived(base, comparisons));
            && (status == ActionRequired <==> !Sound(base) || comparisons == [] || Occurs(comparisons, Errored))
            && (status == Failing <==>
                Sound(base) && !Occurs(comparisons, Errored) && Occurs(comparisons, Regressed))
            && (status == Success <==>
                Sound(base) && !Occurs(comparisons, Errored) && !Occurs(comparisons, Regressed)
                && (Occurs(comparisons, Improved) || Occurs(comparisons, Stable)))
  {
    CountPositiveIff(comparisons, Errored);
    CountPositiveIff(comparisons, Regressed);
    CountPositiveIff(comparisons, Improved);
    CountPositiveIff(comparisons, Stable);
  }

  // ---------------------------------------------------------------------------------------
  // From the stored results to the status

  /** A stored result of one of the selected contender runs. */
  ghost predicate IsContender(selections: Selections, r: Result) {
    r.run in selections && r.commit.Some? && selections[r.run].contenderCommit == r.commit
  }

  lemma ContenderIff(selections: Selections, r: Result)
    ensures KeyIn(r, ContenderKeys(selections)) <==> IsContender(selections, r)
  {
  }

  /** The rows compared are exactly the stored contender results. */
  lemma ComparedRows(table: seq<Result>, selections: Selections, first: seq<Result>, second: seq<Result>, r: Result)
    requires IsSelected(table, ContenderKeys(selections), BaselineKeys(selections), first, second)
    ensures r in RowsWith(first + second, ContenderKeys(selections)) <==> r in table && IsContender(selections, r)
  {
    ContenderIff(selections, r);
    if r in RowsWith(first + second, ContenderKeys(selections)) {
      SelectedAreStored(table, ContenderKeys(selections), BaselineKeys(selections), first, second, r);
    }
    if r in table && KeyIn(r, ContenderKeys(selections)) {
      assert r in RowsWith(table, ContenderKeys(selections));
      assert r in multiset(first);
    }
  }

  /** Compare indicates a regression of this row against its newest stored baseline result. */
  ghost predicate Regresses(table: seq<Result>, selections: Selections, compare: Compare, r: Result) {
    && !r.errored
    && exists b | b in table ::
         HasBaseline(table, selections, r, b) && compare(b.id, r.id).Lookback? && compare(b.id, r.id).regression
  }

  lemma RegressedIff(table: seq<Result>, selections: Selections, compare: Compare, r: Result, made: Comparison)
    requires Answers(table, selections, compare, r, made)
    ensures made.status == Regressed <==> Regresses(table, selections, compare, r)
  {
    if made.status == Regressed {
      assert !r.errored;
      var b :| b in table && HasBaseline(table, selections, r, b);
      assert compare(b.id, r.id).Lookback?;
    }
    if Regresses(table, selections, compare, r) {
      var b :| b in table && HasBaseline(table, selections, r, b) && compare(b.id, r.id).Lookback?
               && compare(b.id, r.id).regression;
      assert made.status == Regressed;
    }
  }

  /** When Compare never fails and nothing is wrong with the runs, what the comparisons of a report amount to. */
  lemma StatusesFromTable(
    table: seq<Result>, selections: Selections, first: seq<Result>, second: seq<Result>, compare: Compare)
    requires IsTable(table) && forall x, y :: !compare(x, y).Failure?
    requires IsSelected(table, ContenderKeys(selections), BaselineKeys(selections), first, second)
    ensures var rows := first + second;
            var made := Assembled(RowsWith(rows, ContenderKeys(selections)), rows, selections, compare);
            && made.Some?
            && (Occurs(made.value, Errored) <==> exists r | r in table :: IsContender(selections, r) && r.errored)
            && (Occurs(made.value, Regressed) <==>
                exists r | r in table :: IsContender(selections, r) && Regresses(table, selections, compare, r))
  {
    var rows := first + second;
    var contenders := RowsWith(rows, ContenderKeys(selections));
    AssembledFailsIff(contenders, rows, selections, compare);
    var made := Assembled(contenders, rows, selections, compare).value;
    forall i | 0 <= i < |made|
      ensures contenders[i] in table && IsContender(selections, contenders[i])
      ensures made[i].status == Errored <==> contenders[i].errored
      ensures made[i].status == Regressed <==> Regresses(table, selections, compare, contenders[i])
    {
      ComparisonAnswers(table, selections, first, second, compare, i);
      RegressedIff(table, selections, compare, contenders[i], made[i]);
      assert contenders[i] in contenders;
      ComparedRows(table, selections, first, second, contenders[i]);
    }
    forall r | r in table && IsContender(selections, r) ensures exists i | 0 <= i < |made| :: contenders[i] == r {
      ComparedRows(table, selections, first, second, r);
    }
    OccursIff(made, contenders, table, selections, Errored, (r: Result) => r.errored);
    OccursIff(
      made, contenders, table, selections, Regressed, (r: Result) => Regresses(table, selections, compare, r));
  }

  /** Comparisons and rows correspond, so some comparison has a status exactly when some row calls for it. */
  lemma OccursIff(
    made: seq<Comparison>, contenders: seq<Result>, table: seq<Result>, selections: Selections, status: Status,
    calls: Result -> bool)
    requires |made| == |contenders|
    requires forall i | 0 <= i < |made| ::
               && contenders[i] in table && IsContender(selections, contenders[i])
               && (made[i].status == status <==> calls(contenders[i]))
    requires forall r | r in table && IsContender(selections, r) :: exists i | 0 <= i < |made| :: contenders[i] == r
    ensures Occurs(made, status) <==> exists r | r in table :: IsContender(selections, r) && calls(r)
  {
    if Occurs(made, status) {
      var c :| c in made && c.status == status;
      var i :| 0 <= i < |made| && made[i] == c;
      assert calls(contenders[i]);
    }
    if r :| r in table && IsContender(selections, r) && calls(r) {
      var i :| 0 <= i < |made| && contenders[i] == r;
      assert made[i] in made;
    }
  }

  /**
   A report fails exactly when no contender result errored and Compare indicates a regression of some contender
   result against its newest stored baseline result.
   */
  lemma ReportFailsIff(
    table: seq<Result>, selections: Selections, first: seq<Result>, second: seq<Result>, compare: Compare,
    base: Summary)
    requires IsTable(table) && Sound(base) && forall x, y :: !compare(x, y).Failure?
    requires IsSelected(table, ContenderKeys(selections), BaselineKeys(selections), first, second)
    ensures var rows := first + second;
            var made := Assembled(RowsWith(rows, ContenderKeys(selections)), rows, selections, compare);
            && made.Some?
            && var results := CountRows(table, ContenderKeys(selections));
            && var s := Tallied(Base(base).(contenderResults := results), made.value);
            && (DeriveStatus(s) == Failing <==>
                && (forall r | r in table && IsContender(selections, r) :: !r.errored)
                && exists r | r in table :: IsContender(selections, r) && Regresses(table, selections, compare, r))
  {
    StatusesFromTable(table, selections, first, second, compare);
    var rows := first + second;
    var made := Assembled(RowsWith(rows, ContenderKeys(selections)), rows, selections, compare).value;
    CountPositiveIff(made, Errored);
    CountPositiveIff(made, Regressed);
    if r :| r in table && IsContender(selections, r) {
      ContenderIff(selections, r);
      assert r in RowsWith(table, ContenderKeys(selections));
    }
  }

  // ---------------------------------------------------------------------------------------
  // The alert filter

  /** The comparisons whose contender does not begin a distribution change. */
  function Kept(comparisons: seq<Comparison>): (r: seq<Comparison>)
    ensures forall c :: c in r <==> c in comparisons && !c.boundary
    ensures |r| <= |comparisons|
    ensures |r| == |comparisons| ==> r == comparisons
  {
    if comparisons == [] then [] else
      var n := |comparisons| - 1;
      var rest := Kept(comparisons[..n]);
      assert comparisons == comparisons[..n] + [comparisons[n]];
      if comparisons[n].boundary then rest else rest + [comparisons[n]]
  }

  function KeptRows(rows: seq<Result>): seq<Result> {
    if rows == [] then [] else
      var rest := KeptRows(rows[..|rows| - 1]);
      if rows[|rows| - 1].boundary then rest else rest + [rows[|rows| - 1]]
  }

  /** Filtering the comparisons is assembling only the rows that begin no distribution change. */
  lemma {:induction false} FilterIsRederivation(
    contenders: seq<Result>, rows: seq<Result>, selections: Selections, compare: Compare)
    requires Assembled(contenders, rows, selections, compare).Some?
    ensures Assembled(KeptRows(contenders), rows, selections, compare)
            == Some(Kept(Assembled(contenders, rows, selections, compare).value))
    decreases |contenders|
  {
    if contenders != [] {
      var n := |contenders| - 1;
      FilterIsRederivation(contenders[..n], rows, selections, compare);
      var all := Assembled(contenders, rows, selections, compare).value;
      var before := Assembled(contenders[..n], rows, selections, compare).value;
      assert all[..n] == before;
      assert all[n].boundary == contenders[n].boundary;
      var kept := KeptRows(contenders[..n]);
      assert (kept + [contenders[n]])[..|kept|] == kept;
    }
  }

  /** The comparisons of one run, in order. */
  function OfRun(comparisons: seq<Comparison>, run: Id): (r: seq<Comparison>)
    ensures forall c :: c in r <==> c in comparisons && c.run == run
  {
    if comparisons == [] then [] else
      var n := |comparisons| - 1;
      var rest := OfRun(comparisons[..n], run);
      assert comparisons == comparisons[..n] + [comparisons[n]];
      if comparisons[n].run == run then rest + [comparisons[n]] else rest
  }

  lemma {:induction false} KeptOfRun(comparisons: seq<Comparison>, run: Id)
    ensures Kept(OfRun(comparisons, run)) == OfRun(Kept(comparisons), run)
    decreases |comparisons|
  {
    if comparisons != [] {
      var n := |comparisons| - 1;
      KeptOfRun(comparisons[..n], run);
      var mine, kept := OfRun(comparisons[..n], run), Kept(comparisons[..n]);
      assert (mine + [comparisons[n]])[..|mine|] == mine;
      assert (kept + [comparisons[n]])[..|kept|] == kept;
    }
  }

  function TotalAttached(runs: seq<Run>): nat {
    if runs == [] then 0 else TotalAttached(runs[..|runs| - 1]) + |runs[|runs| - 1].comparisons|
  }

  ghost predicate Attached(runs: seq<Run>, comparisons: seq<Comparison>) {
    forall i | 0 <= i < |runs| :: runs[i].comparisons == OfRun(comparisons, runs[i].id)
  }

  predicate Names(runs: seq<Run>, id: Id) {
    exists i | 0 <= i < |runs| :: runs[i].id == id
  }

  function SumOf(ids: seq<Id>, comparisons: seq<Comparison>): nat {
    if ids == [] then 0 else SumOf(ids[..|ids| - 1], comparisons) + |OfRun(comparisons, ids[|ids| - 1])|
  }

  /** How often an id is listed. */
  function Times(ids: seq<Id>, id: Id): nat {
    if ids == [] then 0 else Times(ids[..|ids| - 1], id) + if ids[|ids| - 1] == id then 1 else 0
  }

  lemma {:induction false} TimesPositiveIff(ids: seq<Id>, id: Id)
    ensures Times(ids, id) > 0 <==> id in ids
    decreases |ids|
  {
    if ids != [] {
      TimesPositiveIff(ids[..|ids| - 1], id);
      assert ids == ids[..|ids| - 1] + [ids[|ids| - 1]];
    }
  }

  predicate ListedTwice(ids: seq<Id>, id: Id) {
    exists i, j | 0 <= i < j < |ids| :: ids[i] == id && ids[j] == id
  }

  lemma {:induction false} TimesTwiceIff(ids: seq<Id>, id: Id)
    ensures Times(ids, id) > 1 <==> ListedTwice(ids, id)
    decreases |ids|
  {
    if ids != [] {
      var n := |ids| - 1;
      var init := ids[..n];
      TimesTwiceIff(init, id);
      TimesPositiveIff(init, id);
      if ListedTwice(init, id) {
        var i, j :| 0 <= i < j < |init| && init[i] == id && init[j] == id;
        assert ids[i] == id && ids[j] == id;
      }
      if ids[n] == id && id in init {
        var i :| 0 <= i < |init| && init[i] == id;
        assert ids[i] == id && ids[n] == id;
      }
      forall i, j | 0 <= i < j < |ids| && ids[i] == id && ids[j] == id
        ensures ListedTwice(init, id) || (ids[n] == id && id in init)
      {
        assert init[i] == id && (j < n ==> init[j] == id);
      }
    }
  }

  lemma {:induction false} SumGrows(ids: seq<Id>, comparisons: seq<Comparison>)
    requires comparisons != []
    ensures var n := |comparisons| - 1;
            SumOf(ids, comparisons) == SumOf(ids, comparisons[..n]) + Times(ids, comparisons[n].run)
    decreases |ids|
  {
    if ids != [] {
      SumGrows(ids[..|ids| - 1], comparisons);
    }
  }

  lemma {:induction false} SumIsTotalIff(ids: seq<Id>, comparisons: seq<Comparison>)
    requires forall c | c in comparisons :: c.run in ids
    ensures SumOf(ids, comparisons) >= |comparisons|
    ensures SumOf(ids, comparisons) == |comparisons| <==> forall c | c in comparisons :: !ListedTwice(ids, c.run)
    decreases |comparisons|
  {
    if comparisons == [] {
      SumOfNone(ids);
    } else {
      var n := |comparisons| - 1;
      var last := comparisons[n];
      SumGrows(ids, comparisons);
      SumIsTotalIff(ids, comparisons[..n]);
      assert last in comparisons;
      TimesPositiveIff(ids, last.run);
      TimesTwiceIff(ids, last.run);
      assert forall c | c in comparisons :: c == last || c in comparisons[..n];
    }
  }

  lemma {:induction false} SumOfNone(ids: seq<Id>)
    ensures SumOf(ids, []) == 0
    decreases |ids|
  {
    if ids != [] {
      SumOfNone(ids[..|ids| - 1]);
    }
  }

  function Ids(runs: seq<Run>): (r: seq<Id>)
    ensures |r| == |runs| && forall i | 0 <= i < |runs| :: r[i] == runs[i].id
  {
    seq(|runs|, i requires 0 <= i < |runs| => runs[i].id)
  }

  lemma {:induction false} AttachedSum(runs: seq<Run>, comparisons: seq<Comparison>)
    requires Attached(runs, comparisons)
    ensures TotalAttached(runs) == SumOf(Ids(runs), comparisons)
    decreases |runs|
  {
    if runs != [] {
      var n := |runs| - 1;
      AttachedSum(runs[..n], comparisons);
      assert Ids(runs)[..n] == Ids(runs[..n]);
    }
  }

  /**
   When the runs name every contender, attaching loses nothing; it repeats nothing exactly when no run with
   comparisons is listed twice.
   */
  lemma AttachConservesIff(runs: seq<Run>, comparisons: seq<Comparison>)
    requires Attached(runs, comparisons) && forall c | c in comparisons :: Names(runs, c.run)
    ensures TotalAttached(runs) >= |comparisons|
    ensures TotalAttached(runs) == |comparisons| <==> forall c | c in comparisons :: !ListedTwice(Ids(runs), c.run)
  {
    AttachedSum(runs, comparisons);
    forall c | c in comparisons ensures c.run in Ids(runs) {
      var i :| 0 <= i < |runs| && runs[i].id == c.run;
      assert Ids(runs)[i] == c.run;
    }
    SumIsTotalIff(Ids(runs), comparisons);
  }

  /** A run with two metadata groups is listed twice and gets all its comparisons twice. */
  lemma TwoGroupsAttachTwice(c: Comparison)
    ensures var runs := [Run(c.run, [c]), Run(c.run, [c])];
            Attached(runs, [c]) && TotalAttached(runs) == 2 && ListedTwice(Ids(runs), c.run)
  {
    var runs := [Run(c.run, [c]), Run(c.run, [c])];
    assert [c][..0] == [];
    assert OfRun([c], c.run) == [c];
    assert runs[..1] == [Run(c.run, [c])] && runs[..1][..0] == [];
    assert TotalAttached(runs[..1]) == 1;
    assert Ids(runs)[0] == c.run && Ids(runs)[1] == c.run;
  }

  /** A report whose summary, status and reason are those of its comparisons. */
  predicate WellDerived(comparisons: seq<Comparison>, summary: Summary, status: ReportStatus, reason: Reason) {
    && summary == Derived(summary, comparisons)
    && status == DeriveStatus(summary)
    && reason == DeriveReason(status, summary)
  }

  class Report {
    var comparisons: seq<Comparison>
    var runs: seq<Run>
    var summary: Summary
    var status: ReportStatus
    var reason: Reason

    constructor (comparisons: seq<Comparison>, runs: seq<Run>, summary: Summary, status: ReportStatus, reason: Reason)
      ensures this.comparisons == comparisons && this.runs == runs && this.summary == summary
      ensures this.status == status && this.reason == reason
    {
      this.comparisons, this.runs, this.summary, this.status, this.reason := comparisons, runs, summary, status, reason;
    }

    /** deriveSummaryFromComparisons. */
    method DeriveSummary()
      modifies this`summary
      ensures summary == Tallied(old(summary), comparisons)
    {
      for i := 0 to |comparisons|
        invariant summary == Tallied(old(summary), comparisons[..i])
      {
        assert comparisons[..i + 1][..i] == comparisons[..i];
        match comparisons[i].status {
          case Errored => summary := summary.(benchmarkErrors := summary.benchmarkErrors + 1);
          case MissingBaseline => summary := summary.(missingBaseline := summary.missingBaseline + 1);
          case NotComparable => summary := summary.(notComparable := summary.notComparable + 1);
          case Insufficient =>
            summary := summary.(insufficient := summary.insufficient + 1, compared := summary.compared + 1);
          case Regressed =>
            summary := summary.(
              regressions := summary.regressions + 1, compared := summary.compared + 1,
              analyzed := summary.analyzed + 1);
          case Improved =>
            summary := summary.(
              improvements := summary.improvements + 1, compared := summary.compared + 1,
              analyzed := summary.analyzed + 1);
          case Stable =>
            summary := summary.(
              stable := summary.stable + 1, compared := summary.compared + 1,
              analyzed := summary.analyzed + 1);
        }
      }
      assert comparisons[..|comparisons|] == comparisons;
    }

    /** attachComparisonsToRuns. */
    method AttachComparisons()
      modifies this`runs
      ensures Attached(runs, comparisons)
      ensures Ids(runs) == Ids(old(runs))
    {
      var byRun := GroupByRun(comparisons);
      for i := 0 to |runs|
        invariant |runs| == |old(runs)|
        invariant forall j | 0 <= j < |runs| :: runs[j].id == old(runs)[j].id
        invariant forall j | 0 <= j < i :: runs[j].comparisons == OfRun(comparisons, runs[j].id)
      {
        var mine := if runs[i].id in byRun then byRun[runs[i].id] else [];
        runs := runs[i := runs[i].(comparisons := mine)];
      }
    }

    /** The end of Report: summary, status and reason from the comparisons. */
    method Derive()
      modifies this`summary, this`status, this`reason
      ensures summary == Tallied(old(summary), comparisons) && Base(summary) == Base(old(summary))
      ensures status == DeriveStatus(summary) && reason == DeriveReason(status, summary)
      ensures old(summary) == Base(old(summary)).(contenderResults := |comparisons|) ==>
                WellDerived(comparisons, summary, status, reason)
    {
      DeriveSummary();
      status := DeriveStatus(summary);
      reason := DeriveReason(status, summary);
    }
  }

  method GroupByRun(comparisons: seq<Comparison>) returns (byRun: map<Id, seq<Comparison>>)
    ensures forall run: Id :: OfRun(comparisons, run) == if run in byRun then byRun[run] else []
  {
    byRun := map[];
    for i := 0 to |comparisons|
      invariant forall run: Id :: OfRun(comparisons[..i], run) == if run in byRun then byRun[run] else []
    {
      var c := comparisons[i];
      assert comparisons[..i + 1][..i] == comparisons[..i];
      byRun := byRun[c.run := (if c.run in byRun then byRun[c.run] else []) + [c]];
    }
    assert comparisons[..|comparisons|] == comparisons;
  }

  method KeepComparisons(comparisons: seq<Comparison>) returns (kept: seq<Comparison>)
    ensures kept == Kept(comparisons)
  {
    kept := [];
    for i := 0 to |comparisons|
      invariant kept == Kept(comparisons[..i])
    {
      assert comparisons[..i + 1][..i] == comparisons[..i];
      if !comparisons[i].boundary {
        kept := kept + [comparisons[i]];
      }
    }
    assert comparisons[..|comparisons|] == comparisons;
  }

  method KeepRuns(runs: seq<Run>) returns (kept: seq<Run>)
    ensures |kept| == |runs|
    ensures forall i | 0 <= i < |runs| :: kept[i] == Run(runs[i].id, Kept(runs[i].comparisons))
  {
    kept := [];
    for i := 0 to |runs|
      invariant |kept| == i
      invariant forall j | 0 <= j < i :: kept[j] == Run(runs[j].id, Kept(runs[j].comparisons))
    {
      var mine := KeepComparisons(runs[i].comparisons);
      kept := kept + [Run(runs[i].id, mine)];
    }
  }

  lemma KeptRunsAttached(runs: seq<Run>, comparisons: seq<Comparison>, kept: seq<Run>)
    requires |kept| == |runs| && forall i | 0 <= i < |runs| :: kept[i] == Run(runs[i].id, Kept(runs[i].comparisons))
    ensures Ids(kept) == Ids(runs)
    ensures Attached(runs, comparisons) ==> Attached(kept, Kept(comparisons))
  {
    forall i | 0 <= i < |runs| ensures Kept(OfRun(comparisons, runs[i].id)) == OfRun(Kept(comparisons), runs[i].id) {
      KeptOfRun(comparisons, runs[i].id);
    }
  }

  /** The filtered copy: what is left of the comparisons and runs, and the summary derived from that. */
  method FilteredReport(report: Report, kept: seq<Comparison>) returns (r: Report)
    requires kept == Kept(report.comparisons)
    ensures fresh(r) && r.comparisons == kept && Base(r.summary) == Base(report.summary)
    ensures if kept == [] then r.status == Skipped && r.reason == NothingLeft && r.summary == Base(report.summary)
            else WellDerived(kept, r.summary, r.status, r.reason)
    ensures Ids(r.runs) == Ids(report.runs)
    ensures Attached(report.runs, report.comparisons) ==> Attached(r.runs, kept)
  {
    var runs := FilteredRuns(report.runs, report.comparisons);
    var summary := Base(report.summary).(contenderResults := |kept|);
    BaseOfBase(report.summary, |kept|);
    r := new Report(kept, runs, summary, Skipped, NothingLeft);
    if kept != [] {
      r.Derive();
    }
  }

  lemma BaseOfBase(s: Summary, n: nat)
    ensures Base(Base(s).(contenderResults := n)) == Base(s)
  {
  }

  method FilteredRuns(runs: seq<Run>, ghost comparisons: seq<Comparison>) returns (kept: seq<Run>)
    ensures Ids(kept) == Ids(runs)
    ensures Attached(runs, comparisons) ==> Attached(kept, Kept(comparisons))
  {
    kept := KeepRuns(runs);
    KeptRunsAttached(runs, comparisons, kept);
  }

  /**
   automatedAlertReport.  The source report stays as it is.  What alerting sees is the report derived from
   the remaining comparisons, except that a report with nothing left is skipped, whatever its runs say.
   */
  method AutomatedAlertReport(report: Report) returns (r: Report)
    ensures r == report || fresh(r)
    ensures r.comparisons == Kept(report.comparisons) && Base(r.summary) == Base(report.summary)
    ensures r == report <==> |Kept(report.comparisons)| == |report.comparisons|
    ensures r != report ==>
              if r.comparisons == [] then
                r.status == Skipped && r.reason == NothingLeft && r.summary == Base(report.summary)
              else WellDerived(r.comparisons, r.summary, r.status, r.reason)
    ensures WellDerived(report.comparisons, report.summary, report.status, report.reason) && r.comparisons != [] ==>
              WellDerived(r.comparisons, r.summary, r.status, r.reason)
    ensures Attached(report.runs, report.comparisons) ==>
        Attached(r.runs, r.comparisons) && Ids(r.runs) == Ids(report.runs)
  {
    var kept := KeepComparisons(report.comparisons);
    if |kept| == |report.comparisons| {
      return report;
    }
    r := FilteredReport(report, kept);
  }
}
