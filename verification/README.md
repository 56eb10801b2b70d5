# Conbench protocols in Dafny

Conbench stores benchmark results and serves reports, series listings and alerts from them. Its Go
server and CLI contain a number of small protocols in which several actors share tables, channels or a
map, two SQL rewrites that must agree with a simpler query, and a few streaming and encoding
algorithms. This project models those and proves what they keep over every input and every
interleaving. `dafny verify dfyconfig.toml` checks all of it.

| file | models |
|---|---|
| `Series.dfy`, `SeriesAnswers.dfy`, `SeriesLookups.dfy` | the series listing: an exact query, two bounded rewrites, cursors, what the store answers, the fingerprint lookup |
| `AlertDelivery.dfy`, `AlertDispatcher.dfy` | claiming alert deliveries under a lease, and one dispatcher's loop |
| `AlertRules.dfy`, `AlertEvaluator.dfy` | the alert rule state machine under stale evaluators and editors |
| `SubmitPool.dfy` | the CLI's producer, workers and collector |
| `Backfiller.dfy` | the per-repository backfill queue and its shutdown |
| `GetOrCreate.dfy`, `Ingest.dfy` | get-or-create over unique indexes and idempotent submission |
| `Ancestry.dfy`, `BaselineChoice.dfy`, `CiRows.dfy`, `CiReport.dfy` | the ancestry query, baseline choice, the report's rows, its summary, and the alert filter |
| `CanonicalJson.dfy`, `JsonReader.dfy`, `JsonShape.dfy`, `JsonPrinter.dfy` | the canonical JSON printer, a reader that inverts it, its exact text, and the writers |
| `LogScan.dfy` | the chunked log scanner |
| `PngFilter.dfy`, `PngImage.dfy` | undoing PNG row filters and yielding pixels |
| `CommitRepair.dfy` | the repair walk by cursor |
| `CodeStore.dfy` | the two one-time login code stores |
| `IndexSwap.dfy` | installing a unique index across crashes |
| `Options.dfy` | the optional value |

How things are represented. A table is a map or sequence of records and each SQL statement is one atomic
step. Time is an `int`; ids, fingerprints and repository names are integers where only their order or
equality matters. A concurrent protocol is a datatype of states with `Enabled` and `Apply` for its steps,
and theorems quantify over every enabled sequence of steps. Code that updates an object in place is a
class whose methods are proved against the same step functions; other actors' interference between
two statements of a method is a parameter. Sending, enriching, comparing, hashing and the report's
verdicts are parameters or arbitrary outcomes.

Places where the code does not do what one might expect, each with its condition and a concrete case:

- Following a cursor of the fingerprint lookup shows the same series again when it has an older point that
  passes the filters, because that query applies the cursor before it picks the latest result
  (`SeriesLookups.LookupCursorRepeatsIff`, `SeriesLookups.LookupCursorRepeats`).
- Two edits of an alert rule that overlap can leave the rule open on a verdict that was reached under
  another configuration, because the reset flag is computed from a read that may be stale
  (`AlertRules.EditKeepsCurrentIff`, `AlertRules.StaleEditLeavesOldVerdict`).
- A dispatcher that records its outcome after its lease has ended shares the delivery with another, and both
  send it (`AlertDelivery.TimelyRunIsExclusive`, `AlertDelivery.LateRunSendsTwice`).
- When a selected baseline run is also a selected contender run its rows are compared twice, and the
  buckets no longer add up to the contender results (`CiReport.BucketsMatchContendersIff`,
  `CiReport.SharedRunIsComparedTwice`).
- A run whose results carry two sets of run tags or reasons is listed twice in a report, with all its comparisons
  each time (`CiReport.AttachConservesIff`, `CiReport.TwoGroupsAttachTwice`).
- A guard index left invalid by an interrupted statement makes every later migration run fail until someone
  drops it (`IndexSwap.InvalidGuardBlocks`, `IndexSwap.InterruptedCreateBlocks`); safety is not affected.

The wait group of the backfiller is larger than the map by the number of loops that have left the critical section
but not yet run their deferred `Done`; the invariant says so exactly.

## Model

| member | source | states |
|---|---|---|
| `SeriesListing.QRecentIsPrefixOfExact` | internal/db/series.sql.go:734-853 | for every database, cursor, window limit and page size the broad search returns a prefix of the exact search, and all of it exactly when the window reaches every row of the exact page |
| `SeriesListing.BrowseIsPrefixOfExact` | internal/db/series.sql.go:153-320 | the same for default browse under any filters, against the exact query over all cases |
| `SeriesListing.ListSound` | internal/db/series.sql.go:569-652 | every row of the exact list shows the true latest result of its series and lies after the cursor |
| `SeriesListing.ListComplete` | internal/db/series.sql.go:569-652 | every series whose latest result is before the cursor has its row |
| `SeriesListing.ListStrictlyDown` | internal/db/series.sql.go:569-652 | rows go strictly down in (timestamp, fingerprint) and no series appears twice |
| `SeriesListing.ListAfter` | internal/db/series.sql.go:569-652 | the list after the n-th row's cursor is exactly the rest of the list |
| `SeriesListing.StorePageIsExactPrefix` | internal/db/store.go:814-892 | whichever query the store picks, with its own window limits, its page is a prefix of the exact query's page |
| `SeriesListing.StorePageIsPrefix` | internal/db/store.go:814-892 | and therefore a prefix of the first page-size rows of the exact list |
| `SeriesListing.FullPageContinues` | internal/service/series.go:217-221 | after a full page the exact list continues exactly where the page ended |
| `SeriesListing.WalkIsPrefix` | internal/service/series.go:174-223 | following next cursors any number of times enumerates a prefix of the exact list |
| `SeriesListing.WalkNeverRepeats` | internal/service/series.go:174-223 | such a walk never repeats a series, moves strictly down, and every row shows the true latest |
| `SeriesAnswers.ExactRowIff` | internal/db/series.sql.go:569-652 | in terms of the stored rows alone: the exact list holds exactly the newest passing point of each series that lies after the cursor, with the series' number of points |
| `SeriesAnswers.CompleteSearchIsExact` | internal/db/store.go:814-837 | a search over at most 64 cases or under any filter returns exactly the first page of the exact list |
| `SeriesAnswers.BroadSearchRowIff` | internal/db/store.go:838-852 | any other search shows exactly those rows of the exact page that are at the cursor's time or have fewer newer commits than the window holds |
| `SeriesAnswers.BroadSearchShowsRecent` | internal/db/store.go:875-884 | a row with fewer than 320 newer commits is always shown |
| `SeriesAnswers.BrowseRowIff` | internal/db/store.go:855-869 | browse shows exactly those rows of the exact page that have fewer newer matching commits than its window holds, or are at the cursor's time |
| `SeriesAnswers.BrowseShowsRecent` | internal/db/store.go:886-892 | a row with fewer than 80 newer matching commits, 512 after a cursor or by hardware, is always shown |
| `SeriesAnswers.BoundaryReaches` | internal/db/series.sql.go:734-853 | the window's boundary reaches a candidate exactly when fewer than the limit are newer |
| `SeriesAnswers.WindowSizes` | internal/db/store.go:875-892 | the window sizes by page size |
| `SeriesLookups.LookupRowTrueLatestIff` | internal/db/series.sql.go:408-486 | a lookup row is the true latest exactly when no point of the series is at or past the cursor |
| `SeriesLookups.LookupMemberMeaning` | internal/db/series.sql.go:408-486 | which stored points a lookup looks at |
| `SeriesLookups.LookupFilterMeaning` | internal/db/series.sql.go:408-486 | what its filters ask of the latest one |
| `SeriesLookups.LookupNonemptyIff` | internal/db/series.sql.go:408-486 | under any filters, text search and cursor, a lookup returns a row exactly when the newest point before the cursor passes them |
| `SeriesLookups.LookupCursorRepeatsIff` | internal/db/series.sql.go:408-486 | with page size 1, under any filters, text search and cursor, the next cursor yields the same series again exactly when the newest of its older points passes the filters |
| `SeriesLookups.LookupCursorRepeats` | internal/db/series.sql.go:408-486 | a concrete database on which it does |
| `SeriesLookups.FilteredBroadSearchIsNoPrefix` | internal/db/store.go:871-873 | why filtered requests must not use the broad search: its NOT EXISTS ignores filters, so its page need not be a prefix |
| `SeriesLookups.FilteredBroadSearchSkips` | internal/db/series.sql.go:734-853 | a concrete database and active window on which the broad search would skip a series |
| `AlertDelivery.ReachableInv` | internal/db/alert.sql.go:13-66 | in every reachable state attempts equal the number of claims and each (event, channel, target) has one row |
| `AlertDelivery.RunKeepsInv` | internal/db/alert.sql.go:201-210 | the inductive invariant over every interleaving of dispatchers |
| `AlertDelivery.DeliveredIsFinal` | internal/db/alert.sql.go:484-533 | a delivered row stays delivered and is never claimed again |
| `AlertDelivery.EligibleMeaning` | internal/db/alert.sql.go:13-66 | only an undelivered row of the caller's channel and target whose time has come can be claimed |
| `AlertDelivery.InsertMeaning` | internal/db/alert.sql.go:201-210 | a new delivery is pending and claimable at once; an existing one is left alone |
| `AlertDelivery.ClaimLeases` | internal/db/alert.sql.go:13-66 | a claimed row is claimable again exactly when the lease ends; no other row changes |
| `AlertDelivery.FailureBacksOff` | internal/db/alert.sql.go:522-533 | a recorded failure is claimable again exactly from the next attempt time on |
| `AlertDelivery.DeliveryEnds` | internal/db/alert.sql.go:484-496 | a recorded delivery is never claimable, and failing it later changes nothing |
| `AlertDelivery.StepRecords` | internal/service/alert_delivery.go:115-166 | what each protocol step records: the lease, the outcome, the times read |
| `AlertDelivery.TimelyRunIsExclusive` | internal/service/alert_delivery.go:115-166 | if outcomes are recorded before leases end, no delivery is held by two dispatchers and none is sent successfully twice |
| `AlertDelivery.ExpiredLeaseIsShared` | internal/service/alert_delivery.go:115-166 | the assumption cannot be dropped: from any state with an expired lease in a sender's hands, four steps send the delivery twice |
| `AlertDelivery.LateRunSendsTwice` | internal/service/alert_delivery.go:115-166 | and such a state is reached: from every start with two dispatchers some run sends one delivery successfully twice |
| `AlertDispatcher.UndeliveredEvents` | internal/db/alert.sql.go:567-579 | the earliest `limit` events without a delivery for this channel and target, in created_at, id order |
| `AlertDispatcher.UndeliveredMeaning` | internal/db/alert.sql.go:567-579 | an event is selected only without such a delivery, and for GitHub channels only in the target repository |
| `AlertDispatcher.DeliveryStore.InsertOne` | internal/db/alert.sql.go:201-210 | the guarded insert adds a row exactly when the event had none, and leaves a delivery for it |
| `AlertDispatcher.DeliveryStore.Enqueue` | internal/db/store.go:392-425 | with others writing between the inserts, every selected event ends with a delivery and the number returned is that of this call's inserts; a failing insert ends the call with the rows inserted so far |
| `AlertDispatcher.DeliveryStore.ClaimFirst` | internal/db/alert.sql.go:13-66 | claims the oldest undelivered, due row of the caller's channel and target, or reports that there is none |
| `AlertDispatcher.DeliveryStore.Attempt` | internal/service/alert_delivery.go:115-166 | one turn claims the oldest eligible row, sends and records, or stops; a mark is refused only by a store error or a delivery another dispatcher recorded |
| `AlertDispatcher.DeliveryStore.Deliver` | internal/service/alert_delivery.go:100-171 | with other dispatchers' statements before each of its own, the table follows the ledger of both sides, the summary counts this dispatcher's inserts, claims and deliveries, the failures are the claims whose send failed, and it stops early only when nothing is eligible; alone and within the retry time it claims no delivery twice |
| `AlertDispatcher.StatementAccounted` | internal/db/alert.sql.go:484-533 | every statement, whoever executes it, keeps keys, attempts and delivered rows in step with the ledger, and no dispatcher delivers a row twice |
| `AlertDispatcher.QuietDeliveries` | internal/service/alert_delivery.go:157-165 | left alone, the delivered rows grow by exactly the number of deliveries |
| `AlertRules.ReachableHistories` | internal/service/alerts.go:163-257 | over every interleaving of evaluators and editors, events between resets alternate beginning with opened, the state is open exactly when the last event since the reset is opened, and each event was judged under the configuration the rule had at that transition |
| `AlertRules.RunKeepsInv` | internal/db/alert.sql.go:707-764 | the inductive invariant behind it |
| `AlertRules.EventParity` | internal/service/alerts.go:163-223 | counting from a reset, even entries are openings and odd ones resolutions |
| `AlertRules.SecondTransitionLoses` | internal/db/alert.sql.go:707-764 | of two evaluators with the same snapshot and verdict only one inserts an event |
| `AlertRules.ActMeaning` | internal/service/alerts.go:163-257 | an evaluator's write changes the rule only while it is enabled and as seen; then a failing verdict leaves it open, a passing one inactive, with an event exactly when the state changed |
| `AlertRules.EditStores` | internal/db/alert.sql.go:863-878 | after an edit the rule has the requested configuration and enabled flag, a reset makes it inactive without an event, and no other rule changed |
| `AlertRules.CreateAndDelete` | internal/db/store.go:168-250 | a created rule is inactive with an empty history, a deleted one is gone |
| `AlertRules.DisabledRuleIsSilent` | internal/db/alert.sql.go:707-764 | from a state in which a rule is disabled, every run that does not enable it adds no event, however stale the snapshots |
| `AlertRules.UpdateKeepsInv` | internal/db/alert.sql.go:863-878 | an edit, with or without reset, keeps every history well formed |
| `AlertRules.EditKeepsCurrentIff` | internal/api/alerts.go:197-223 | after one edit all events since the reset still stand under the rule's configuration exactly when it resets, keeps the configuration, or there was no event |
| `AlertRules.UndisturbedRunIsCurrent` | internal/api/alerts.go:197-223 | when no edit overwrites one it did not see, an open rule is open under its present configuration |
| `AlertRules.StaleEditLeavesOldVerdict` | internal/api/alerts.go:357-363 | a reachable run in which a stale edit leaves the rule open on another configuration's verdict |
| `AlertEvaluator.FateTellsHistory` | internal/service/alerts.go:163-223 | a rule is reported as opened or resolved exactly when its history grew, by the reported event |
| `AlertEvaluator.FateMeaning` | internal/service/alerts.go:74-116 | what each fate means, by what was learnt of the rule and what the store held at the write |
| `AlertEvaluator.EvaluationDates` | internal/service/alerts.go:259-274 | an evaluation dates the rule exactly while it is as seen, and touches nothing after a failed lookup |
| `AlertEvaluator.TallyPartition` | internal/service/alerts.go:56-116 | the counters exactly: rules split into no candidate, evaluated and lookup errors; evaluated rules into four buckets and those that vanished; failures are the failing rules |
| `AlertEvaluator.TallyLists` | internal/service/alerts.go:62-67 | every failing rule is among the failures and every inserted event among the events |
| `AlertEvaluator.CleanTally` | internal/service/alerts.go:68-71 | an error-free evaluation puts every rule into exactly one of five counters |
| `AlertEvaluator.After` | internal/service/alerts.go:62-67 | stale snapshots and any writes by others in between keep every history well formed |
| `AlertEvaluator.RuleStore.Touch` | internal/db/alert.sql.go:650-663 | changes only the evaluation time, and only while state and configuration match |
| `AlertEvaluator.RuleStore.Transition` | internal/db/alert.sql.go:707-764 | state change and event insert happen together or not at all |
| `AlertEvaluator.RuleStore.Update` | internal/db/alert.sql.go:863-878 | the owner's edit stores configuration and enabled flag, resets the state without an event, and leaves every other rule alone |
| `AlertEvaluator.Evaluator.TransitionIfNeeded` | internal/service/alerts.go:163-223 | the rule lands in the bucket of its fate, or in none when it is gone |
| `AlertEvaluator.Evaluator.EvaluateRule` | internal/service/alerts.go:74-116 | tables and counters follow the rule's fate on every path, including errors |
| `AlertEvaluator.Evaluator.Evaluate` | internal/service/alerts.go:56-72 | with a clock reading and others' writes per rule, the tables are those of all statements in order, the summary counts the fates exactly, and it fails exactly when some rule did |
| `SubmitPool.FinishedIsSequential` | cmd/conbench/results.go:280-351 | every finished schedule has the sequential lines in decode order, each body submitted exactly once, an error exactly when some submission had one, and no index out of range |
| `SubmitPool.FinishedByFixture` | cmd/conbench/results.go:333-350 | by fixture: the line of each body holds the server's answer to it, a broken fixture has its own line after its bodies, and the call aborts exactly for a single broken fixture |
| `SubmitPool.OpsMeaning` | cmd/conbench/results.go:333-348 | the bodies of all fixtures in order |
| `SubmitPool.FirstErrorIsFirst` | cmd/conbench/results.go:310-317 | the reported error is that of the first answer collected that has one |
| `SubmitPool.NeverStuck` | cmd/conbench/results.go:280-351 | no reachable unfinished state is stuck |
| `SubmitPool.SchedulesAreFinite` | cmd/conbench/results.go:280-351 | no schedule is longer than a bound known at the start, so every schedule that keeps moving finishes |
| `SubmitPool.RunKeepsInv` | cmd/conbench/results.go:295-331 | where every body is, at every moment |
| `SubmitPool.AbortIsLast` | cmd/conbench/results.go:340-344 | only the last operation of a single fixture can abort the call |
| `Backfiller.Worker.Enqueue` | internal/commit/backfill.go:61-80 | drops when closed, queues behind a running loop, otherwise starts one |
| `Backfiller.Worker.TakeNext` | internal/commit/backfill.go:112-128 | hands out the oldest pending job or removes the repository |
| `Backfiller.ReachableInv` | internal/commit/backfill.go:61-128 | the map holds exactly the repositories with one live loop, queued jobs carry their key, the wait group counts the loops not yet done, and accepted jobs are finished, running and queued ones in order |
| `Backfiller.LoopStepsAreSafe` | internal/commit/backfill.go:112-128 | the unchecked map lookup always finds its entry and the wait group never goes negative |
| `Backfiller.FinishedInOrder` | internal/commit/backfill.go:57-80 | per repository, finished jobs are a prefix of accepted jobs |
| `Backfiller.ClosedAcceptsNothing` | internal/commit/backfill.go:64-67 | nothing is accepted after closing |
| `Backfiller.ShutdownDrains` | internal/commit/backfill.go:86-107 | when Shutdown has returned every accepted job has run, in order, and no loop or entry remains |
| `Backfiller.ShutdownCanProceed` | internal/commit/backfill.go:86-107 | while Shutdown waits, the loops alone can always move |
| `Backfiller.DrainIsFinite` | internal/commit/backfill.go:86-128 | after closing, the loops take at most a bounded number of steps in any run, so a waiting Shutdown whose loops keep moving returns |
| `Backfiller.FinishedWereAccepted` | internal/commit/backfill.go:61-128 | no job is finished more often than it was accepted |
| `GetOrCreate.KeyedTable.Insert` | internal/db/store.go:73-96 | inserts unless the key is taken and keeps keys unique |
| `GetOrCreate.KeyedTable.Call` | internal/db/store.go:73-96 | the call is a run of the protocol's steps with other callers' inserts interleaved; it returns the one row of its key and the final select never misses |
| `GetOrCreate.CallersAgree` | internal/db/store.go:73-111 | over every interleaving all callers of a key get the same id and none ends empty-handed |
| `GetOrCreate.CallerProgresses` | internal/db/store.go:73-96 | every unfinished caller can move and gets closer to its id |
| `Ingest.SubmissionsAgree` | internal/service/ingest.go:69-171 | at most one row per submission key; successes of one key share id, run id and fingerprint and carry the stored hash; no internal error |
| `Ingest.OtherPayloadConflicts` | internal/service/ingest.go:224-232 | once the row exists a valid request with another payload can end only in the conflict error |
| `Ingest.SubmitProgresses` | internal/service/ingest.go:69-171 | every unfinished submission can take its next statement and gets closer to its end |
| `Ingest.OneFingerprintPerSeries` | internal/service/ingest.go:120-171 | over any stored results and every interleaving, successful submissions of one case, context, hardware hash and repository return the same fingerprint, inserted or replayed, keyed or not |
| `Ingest.AnswerIsOwn` | internal/service/ingest.go:148-170 | a success returns the row with its own key and hash, its own run id, and the fingerprint of its own case, context, hardware hash and repository |
| `Ingest.InvalidNeverInserts` | internal/service/ingest.go:88-105 | an invalid request never inserts; it is refused unless its key is already stored |
| `Ingest.StoredRowsShareFingerprint` | internal/service/ingest.go:120-148 | and it is the fingerprint of every stored row of that series, new or old |
| `Ingest.RunKeepsAnswers` | internal/service/ingest.go:148-170 | every stored fingerprint is that of its own columns, and every answer that of a row with the request's columns |
| `Ingest.RunGrows` | internal/db/store.go:627-658 | rows are never changed or removed |
| `BaselineChoice.FindBaselineRun` | internal/service/ci_report.go:685-774 | it finds a run exactly when a candidate exists, and then one that no candidate beats |
| `BaselineChoice.Gather` | internal/service/ci_report.go:701-747 | the candidates of one ancestor, in whatever order the maps yield them, are exactly those defined from the stored rows |
| `BaselineChoice.BetterIsTransitive` | internal/service/ci_report.go:751-772 | the comparator is a strict weak order |
| `BaselineChoice.RankDeterminesCandidate` | internal/service/ci_report.go:751-772 | with distinct ancestry commits it is a strict total order on candidates |
| `BaselineChoice.BestIsUnique` | internal/service/ci_report.go:748-773 | so the choice depends neither on map order nor on sort stability |
| `BaselineChoice.BestMeaning` | internal/service/ci_report.go:751-772 | why the choice beats any other candidate: reason, then newer dated commit, then newer result, then run id and commit id |
| `BaselineChoice.NearestIsChosen` | internal/service/ci_report.go:751-772 | when commit times fall along the ancestry, the nearest ancestor with a candidate of that kind is chosen |
| `BaselineChoice.CandidateMeaning` | internal/service/ci_report.go:708-746 | a candidate is a run recorded at that ancestor, not the contender, timed by its newest result of a contender series |
| `BaselineChoice.RunIsCandidate` | internal/service/ci_report.go:708-746 | and every such run is one |
| `BaselineChoice.BestIsSound` | internal/service/ci_report.go:701-747 | the chosen run lies in the ancestry, shares a fingerprint with the contender and is not the contender |
| `Ancestry.AncestorsChain` | internal/db/ci_report.sql.go:82-125 | the recursive query lists stored commits, each followed by its parent, and stops early only where no parent is stored |
| `Ancestry.ShortAncestryIsDistinct` | internal/db/ci_report.sql.go:98-114 | an ancestry shorter than its limit has no commit twice |
| `Ancestry.AcyclicAncestryIsDistinct` | internal/db/ci_report.sql.go:98-114 | neither has any ancestry when parents form no cycle |
| `Ancestry.BaselineIsDetermined` | internal/service/ci_report.go:685-774 | from such an ancestry the stored rows determine the chosen baseline |
| `CiRows.AssembleComparisons` | internal/service/ci_report.go:776-863 | one comparison per contender row, in order, or an error as soon as one Compare fails |
| `CiRows.AssembledFailsIff` | internal/service/ci_report.go:838-850 | assembly fails exactly when Compare fails for some contender row |
| `CiRows.LookupIsNewest` | internal/db/ci_report.sql.go:198-219 | what the in-memory map finds is the newest stored baseline result, even when its run is also a contender |
| `CiRows.ComparisonFromTable` | internal/service/ci_report.go:805-861 | every comparison is determined by its row and the newest stored result of the selected baseline run |
| `CiRows.ComparisonAnswers` | internal/service/ci_report.go:811-860 | each comparison is errored exactly when its row is, lacks a baseline exactly when none is stored, and otherwise has the status Compare's verdict on the newest baseline and the row calls for |
| `CiRows.SecondPart` | internal/db/ci_report.sql.go:198-214 | baseline rows are of baseline runs and contender series, the newest, one for each run and series |
| `CiRows.ComparisonCount` | internal/db/ci_report.sql.go:171-250 | comparisons number the contender results plus the baseline rows of runs that are also contenders |
| `CiRows.CountsAgreeIff` | internal/db/ci_report.sql.go:13-24 | they number the contender results exactly when no run with results is on both sides |
| `CiReport.BucketsPartition` | internal/service/ci_report.go:974-1000 | errors, missing baseline, not comparable and compared sum to the comparisons; so do their parts |
| `CiReport.BucketsMatchContendersIff` | internal/service/ci_report.go:256-301 | from the stored rows: buckets sum to ContenderResults exactly when no run with results is both contender and baseline |
| `CiReport.SharedRunIsComparedTwice` | internal/service/ci_report.go:571-637 | two stored results and a baseline that is also a contender: the buckets do not add up |
| `CiReport.StatusMeaning` | internal/service/ci_report.go:1002-1017 | each status in terms of the comparisons themselves |
| `CiReport.ReportFailsIff` | internal/service/ci_report.go:256-301 | from the stored results: a report fails exactly when no contender result errored and Compare indicates a regression of some contender result against its newest stored baseline |
| `CiReport.StatusesFromTable` | internal/service/ci_report.go:805-861 | some comparison is errored or regressed exactly when some stored contender result is |
| `CiReport.CountersMeaning` | internal/service/ci_report.go:974-1000 | each counter is the number of comparisons with its status |
| `CiReport.ReasonMeaning` | internal/service/ci_report.go:1019-1043 | the reason names the first thing wrong, and the fallback is never given |
| `CiReport.FilterIsRederivation` | internal/service/alerts.go:121-161 | filtering comparisons is assembling only the rows that begin no distribution change |
| `CiReport.KeptOfRun` | internal/service/alerts.go:132-143 | filtering commutes with splitting by run |
| `CiReport.AttachConservesIff` | internal/service/ci_report.go:1058-1069 | attaching loses nothing, and repeats nothing exactly when no run with comparisons is listed twice |
| `CiReport.TwoGroupsAttachTwice` | internal/db/ci_report.sql.go:333-361 | a run with two metadata groups gets all its comparisons twice |
| `CiReport.Report.DeriveSummary` | internal/service/ci_report.go:974-1000 | adds exactly the counts of the comparisons |
| `CiReport.Report.AttachComparisons` | internal/service/ci_report.go:1058-1069 | each run gets exactly its comparisons, in order |
| `CiReport.Report.Derive` | internal/service/ci_report.go:296-300 | summary, status and reason follow from the comparisons |
| `CiReport.AutomatedAlertReport` | internal/service/alerts.go:121-161 | the source report is untouched; what alerting sees is the report derived from the remaining comparisons, except that an empty remainder is skipped |
| `JsonReader.PrintIsInvertible` | internal/hardware/hash.go:52-104 | a JSON reader recovers every value with integer numbers from its canonical text |
| `JsonReader.PrintIsInjective` | internal/hardware/hash.go:52-104 | different values have different texts |
| `JsonReader.PrintIsPrintable` | internal/hardware/hash.go:126-161 | the text is printable ASCII |
| `JsonReader.ValueRoundTrip` | internal/hardware/hash.go:64-104 | a printed value followed by any non-digit reads back as itself, leaving the rest |
| `JsonReader.StringRoundTrip` | internal/hardware/hash.go:129-161 | every string literal reads back |
| `JsonReader.SurrogatePairRoundTrip` | internal/hardware/hash.go:151-154 | a code point above U+FFFF is written as a surrogate pair that decodes to it (section 7 of RFC 8259) |
| `JsonShape.ArrayShape` | internal/hardware/hash.go:78-86 | an array is its elements in brackets, separated by a comma and a space |
| `JsonShape.ObjectShape` | internal/hardware/hash.go:87-102 | an object is its members in braces, in code point order of the keys, with a colon and a space |
| `JsonShape.StrLessMeaning` | internal/hardware/hash.go:92-92 | the key order is that of the code points |
| `JsonShape.EscapeLengths` | internal/hardware/hash.go:131-158 | printable characters stand for themselves, seven characters take two, the rest of the basic plane six, the others twelve |
| `JsonShape.HexIsLower` | internal/hardware/hash.go:163-170 | hexadecimal digits are lower case |
| `CanonicalJson.SortedKeysUnique` | internal/hardware/hash.go:88-92 | only one ascending list holds a map's keys |
| `JsonPrinter.CollectKeys` | internal/hardware/hash.go:88-91 | the keys of a map, in any order |
| `JsonPrinter.SortKeys` | internal/hardware/hash.go:92-92 | the same keys ascending |
| `JsonPrinter.Builder.WriteJSON` | internal/hardware/hash.go:64-104 | appends exactly the canonical text, whatever the map iteration order |
| `JsonPrinter.Builder.WriteString` | internal/hardware/hash.go:129-161 | appends exactly the string literal |
| `JsonPrinter.Builder.WriteUnicodeEscape` | internal/hardware/hash.go:163-170 | appends the four-digit escape |
| `LogScan.ScanServerLog` | internal/prodclone/logscan.go:26-49 | for any chunking, the findings are exactly the lines that contain a pattern in any case, once each and in order, and each named pattern occurs in its line |
| `LogScan.ReadLogLine` | internal/prodclone/logscan.go:76-113 | one line is consumed and its verdict is that of the whole line |
| `LogScan.ScanPart` | internal/prodclone/logscan.go:92-97 | after each part, verdict and tail are those of the line read so far |
| `LogScan.MatchingPattern` | internal/prodclone/logscan.go:51-59 | a pattern is returned exactly when one occurs |
| `LogScan.BlockedMeaning` | internal/prodclone/logscan.go:14-18 | a blocked line mentions one of the three texts, in any case |
| `LogScan.TailIsEnough` | internal/prodclone/logscan.go:128-136 | a tail of 20 characters loses no occurrence of any pattern |
| `LogScan.NextTail` | internal/prodclone/logscan.go:128-136 | the carried tail is the tail of the whole line so far |
| `LogScan.ReturnDecidesNothing` | internal/prodclone/logscan.go:86-91 | it does not matter whether a carriage return was dropped |
| `LogScan.LinesJoin` | internal/prodclone/logscan.go:76-113 | splitting into lines loses nothing but a missing last newline |
| `PngFilter.Paeth` | scripts/docs_screenshot_inventory.py:241-250 | the neighbour nearest the estimate, ties to left, then up |
| `PngFilter.UnfilterRow` | scripts/docs_screenshot_inventory.py:219-238 | in place, a row that filters to exactly the given bytes; an error exactly for an unknown filter on a nonempty row |
| `PngFilter.FilterRowInjective` | scripts/docs_screenshot_inventory.py:219-238 | only one row filters to given bytes, so unfiltering is exact (filters of section 6 of RFC 2083) |
| `PngFilter.StandardFilters` | scripts/docs_screenshot_inventory.py:225-237 | the five filters by the equations of sections 6.2 to 6.6 of RFC 2083 |
| `PngImage.ScanlinesInjective` | scripts/docs_screenshot_inventory.py:208-214 | encoded scanlines determine the filters and the image |
| `PngImage.IterPixels` | scripts/docs_screenshot_inventory.py:194-216 | each error exactly when its cause holds; otherwise the rows re-encode to the data and the pixels are theirs |
| `PngImage.ReadEncoded` | scripts/docs_screenshot_inventory.py:194-216 | for every image and choice of filters, reading what an encoder wrote yields every pixel unchanged, width times height of them |
| `PngImage.ImagePixelCount` | scripts/docs_screenshot_inventory.py:215-216 | width times height pixels |
| `PngImage.ImagePixelAt` | scripts/docs_screenshot_inventory.py:215-216 | pixel (x, y) is at position y * width + x |
| `PngImage.RowPixelAt` | scripts/docs_screenshot_inventory.py:215-216 | and is the x-th group of bytes of its row |
| `CommitRepair.CommitStore.Select` | internal/db/commit.sql.go:124-138 | the first candidates after the cursor in (repository, sha) order, none skipped |
| `CommitRepair.CandidateMeaning` | internal/db/commit.sql.go:127-135 | which rows are candidates, in the row's own columns |
| `CommitRepair.ErrorMeaning` | internal/commitrepair/repair.go:79-92 | which requests are refused, and why |
| `CommitRepair.FailedKeysMeaning` | internal/commitrepair/repair.go:149-156 | failed are those whose enrichment gave an error or incomplete metadata |
| `CommitRepair.CommitStore.UpdateUnknown` | internal/db/commit.sql.go:178-191 | fills the row only while it is unknown; known rows stay |
| `CommitRepair.Repairer.Inspect` | internal/commitrepair/repair.go:131-185 | one candidate enters exactly one counter |
| `CommitRepair.Repairer.Repair` | internal/commitrepair/repair.go:166-184 | repaired or already repaired, and the backfill counters |
| `CommitRepair.Repairer.Run` | internal/commitrepair/repair.go:77-188 | errors exactly as validated; inspects the first `limit` candidates once each; counters sum to Scanned, failed, unsupported and refused exactly; the first ten failures are kept; commits with complete metadata end known; a cursor exactly when there are more; known rows untouched |
| `CommitRepair.Repairer.Walk` | internal/commitrepair/repair.go:120-129 | following the cursor terminates, inspects initially unknown commits in strictly ascending order, misses only rows another worker repaired, and unless it is a dry run leaves every commit with complete metadata known |
| `CommitRepair.WalkStep` | internal/commitrepair/repair.go:106-129 | repaired rows leaving the set never make the cursor skip one |
| `CommitRepair.WalkAdvances` | internal/commitrepair/repair.go:120-129 | each page with a successor leaves fewer rows ahead and a cursor the next run accepts |
| `CodeStore.StoresAgree` | internal/api/codestore.go:50-135 | for every history of calls with fresh codes, an injective hash and a nondecreasing clock, both stores answer a redeem alike and as the calls alone prescribe |
| `CodeStore.AtMostOnce` | internal/api/codestore.go:77-89 | a code that succeeded never succeeds again |
| `CodeStore.SuccessIsWithinLifetime` | internal/api/codestore.go:77-89 | a success is for the issued user and within the lifetime |
| `CodeStore.FirstRedeemSucceedsIff` | internal/api/codestore.go:77-89 | the first redeem succeeds exactly while the code has not expired |
| `CodeStore.FreshCodeInserts` | internal/db/cli_login_code.sql.go:22-25 | a fresh code's hash is never in the table |
| `CodeStore.MemoryStore.Sweep` | internal/api/codestore.go:62-68 | removes exactly the expired codes, in any order |
| `CodeStore.MemoryStore.IssueAt` | internal/api/codestore.go:50-57 | afterwards the map holds only unexpired codes |
| `CodeStore.MemoryStore.RedeemAt` | internal/api/codestore.go:77-89 | single use, even if expired |
| `CodeStore.TableStore.Issue` | internal/api/codestore.go:109-122 | purge, then insert unless the hash is taken |
| `CodeStore.TableStore.Redeem` | internal/db/cli_login_code.sql.go:44-51 | succeeds exactly on an unredeemed, unexpired row and marks it |
| `IndexSwap.GuardedForever` | internal/db/migrate.go:156-228 | across any sequence of statements, crashes, reruns and inserts, once a correct unique index exists under either name one always exists |
| `IndexSwap.NoDuplicatesEver` | internal/db/migrate.go:156-228 | and from then on no two rows share a submission key |
| `IndexSwap.SuccessInstallsIndex` | internal/db/migrate.go:156-228 | success with the column present ends with the canonical index correct and no guard |
| `IndexSwap.InvalidGuardBlocks` | internal/db/migrate.go:195-197 | an invalid guard keeps every later run from succeeding |
| `IndexSwap.InterruptedCreateBlocks` | internal/db/migrate.go:198-205 | one interrupted CREATE from a database without the index reaches that state |
| `IndexSwap.Database.PrepareSubmissionIndex` | internal/db/migrate.go:156-228 | every execution is a run of the migrator's steps; however it is interrupted the guarantee survives; undisturbed it succeeds exactly under a condition on what it found |
| `IndexSwap.Database.CreateGuardIndex` | internal/db/migrate.go:198-205 | a complete index only without duplicates |

## Left out

- SeriesListing: a bounded page may be short or empty by design; which rows it shows is stated exactly in SeriesAnswers.
- SeriesListing: text search is taken as already resolved to case ids; sparklines and single value summaries of a row are not modelled.
- AlertDelivery.TimelyRunIsExclusive: assumes that outcomes are recorded before leases end; the CLI only approximates this by demanding a retry-after longer than the send timeout.
- AlertDelivery: FOR UPDATE SKIP LOCKED is one atomic claim of an arbitrary eligible row; error texts and last_error are dropped.
- AlertRules: alert_event rows of a deleted rule disappear with it and are not followed further; threshold comparison on NaN is not modelled.
- AlertEvaluator: store failures other than a missing rule are left out; the read that follows a refused touch or transition is taken together with it.
- SubmitPool: goroutines and channels are a state machine on values, not a class; the printed texts are abstract.
- Backfiller: the loops are a state machine; that a passed deadline cancels GitHub calls, and what one backfill job does, is not modelled.
- Ingest.OneFingerprintPerSeries: assumes that equal payload hashes mean equal payloads, and that stored rows satisfy the invariant the service itself keeps.
- Ingest: validation, tag splitting and statistics are one validity flag; info and cluster hardware rows have no unique index and take no part; a conflict reported under the migration guard's name, which the store does not translate, is not modelled.
- GetOrCreate: rows are never deleted, as in the server.
- BaselineChoice.FindBaselineRun: store errors are left out; the order among metadata groups of one run, which the query leaves open, is an input.
- BaselineChoice.RankDeterminesCandidate: needs distinct ancestry commits; Ancestry shows that the query repeats a commit only on a parent cycle.
- CiRows: malformed JSON columns, links, units and summaries of a row are left out; Compare is an arbitrary function of two result ids.
- CiReport: status reasons are named, not spelled out; the early returns for missing runs, commitless runs and too many rows are left out.
- CanonicalJson: numbers with a fraction or exponent, which pyNumber reformats, are left out; strings are valid Unicode, and UTF-8 byte order is taken as code point order.
- LogScan: text is ASCII; the retained line text, which the caller discards, is not modelled; which of several patterns in a line is named is not promised.
- PngImage: reading chunks, decompression and the blank-image statistics are left out.
- CommitRepair.Repairer.Walk: commits inserted during the walk, context cancellation and store errors are left out; so is the base64 form of the cursor.
- CodeStore: times are whole units of one clock; PostgreSQL's rounding to microseconds is not modelled.
- IndexSwap: an advisory lock keeps migrators apart, so one migrator at a time is modelled; manual index changes are not.
- HTTP, SMTP, Slack and GitHub clients, login, command registration, metrics, seeding, and the statistics package would add external calls or easy members only.
