/**
 Two places where the series listing does not enumerate the exact list, each with the exact
 condition: the fingerprint lookup, which applies the cursor before picking the latest result,
 and the broad-search query under filters, which the store therefore never runs.
 */
module SeriesLookups {
  import opened Options
  import opened SeriesListing

  // ---------------------------------------------------------------------------------------
  // SelectSeriesPageForFingerprint

  /** The history of one fingerprint inside the active window. */
  ghost function FingerprintWindow(db: Database, fp: Id, f: Filters): set<Id> {
    set r | r in db.results && HistoryMember(db, r) && db.results[r].fingerprint == fp
            && InActiveWindow(f, CommitTs(db, r))
  }

  /** The cursor restricts the members, not the latest rows. */
  ghost function FingerprintMembers(db: Database, fp: Id, f: Filters, cursor: Option<Cursor>): set<Id> {
    set r | r in FingerprintWindow(db, fp, f) && HistoryMember(db, r) && BeforeCursor(cursor, CommitTs(db, r), fp)
  }

  /** The page's filters: an optional text search resolved to case ids, hardware and repository. */
  ghost predicate PassesLookup(db: Database, f: Filters, q: Option<set<Id>>, e: Entry) {
    && OnPage(db, None, e)
    && (q.Some? ==> db.results[e.id].caseId in q.value)
    && MatchesHardware(db, f, e.id)
    && MatchesRepository(db, f, e.id)
  }

  ghost function LookupEntries(
    db: Database, fp: Id, f: Filters, q: Option<set<Id>>, cursor: Option<Cursor>): set<Entry>
  {
    set e | e in Latest(db, FingerprintMembers(db, fp, f, cursor)) && PassesLookup(db, f, q, e)
  }

  ghost function PageForFingerprint(
    db: Database, fp: Id, f: Filters, q: Option<set<Id>>, cursor: Option<Cursor>, pageSize: nat): seq<SeriesRow>
  {
    JoinCounts(db, Limit(Sorted(LookupEntries(db, fp, f, q, cursor)), pageSize))
  }

  lemma LookupRowIsLatest(
    db: Database, fp: Id, f: Filters, q: Option<set<Id>>, cursor: Option<Cursor>, pageSize: nat, row: SeriesRow)
    requires row in PageForFingerprint(db, fp, f, q, cursor, pageSize)
    ensures ShowsLatest(db, FingerprintMembers(db, fp, f, cursor), row) && row.fp == fp
  {
    var members := FingerprintMembers(db, fp, f, cursor);
    var entries := LookupEntries(db, fp, f, q, cursor);
    var page := Limit(Sorted(entries), pageSize);
    SortedEntries(entries, pageSize);
    JoinCountsKeepsRows(db, members, page);
    var i :| 0 <= i < |page| && JoinCounts(db, page)[i] == row;
    assert page[i] in page;
    RowShowsLatest(db, members, page[i]);
  }

  /** What a lookup looks at: points of the series in the active window, by (time, fingerprint) before the cursor. */
  lemma LookupMemberMeaning(db: Database, fp: Id, f: Filters, cursor: Option<Cursor>, r: Id)
    requires db.Valid()
    ensures r in FingerprintMembers(db, fp, f, cursor)
            <==> r in db.results && db.results[r].fingerprint == fp && !db.results[r].errored
                 && db.results[r].commitId.Some?
                 && var c := db.commits[db.results[r].commitId.value];
                    && c.forkPoint == Some(c.sha) && c.timestamp.Some?
                    && (f.since.Some? ==> f.since.value <= c.timestamp.value)
                    && (f.until.Some? ==> c.timestamp.value <= f.until.value)
                    && (cursor.Some? ==>
                          c.timestamp.value < cursor.value.ts
                          || (c.timestamp.value == cursor.value.ts && fp < cursor.value.fp))
  {
  }

  /** What a lookup's filters ask of the latest point. */
  lemma LookupFilterMeaning(db: Database, f: Filters, q: Option<set<Id>>, e: Entry)
    requires db.Valid() && e.id in db.results
    ensures PassesLookup(db, f, q, e)
            <==> (q.Some? ==> db.results[e.id].caseId in q.value)
                 && (f.hardware.Some? ==> db.hardware[db.results[e.id].hardwareId] == f.hardware.value)
                 && (f.repository.Some? ==> db.results[e.id].repository == f.repository.value)
  {
  }

  /** A lookup row shows the true latest of its series exactly when no point of the series is at or past the cursor. */
  lemma LookupRowTrueLatestIff(
    db: Database, fp: Id, f: Filters, q: Option<set<Id>>, cursor: Option<Cursor>, pageSize: nat, row: SeriesRow)
    requires row in PageForFingerprint(db, fp, f, q, cursor, pageSize)
    ensures ShowsLatest(db, FingerprintWindow(db, fp, f), row)
            <==> AllBeforeCursor(db, FingerprintWindow(db, fp, f), cursor, fp)
  {
    LookupRowIsLatest(db, fp, f, q, cursor, pageSize, row);
    var window, members := FingerprintWindow(db, fp, f), FingerprintMembers(db, fp, f, cursor);
    if AllBeforeCursor(db, window, cursor, fp) {
      assert window == members;
    } else {
      var newer :| newer in window && HistoryMember(db, newer) && !BeforeCursor(cursor, CommitTs(db, newer), fp);
      assert row.latestResult in members && CommitTs(db, row.latestResult) < CommitTs(db, newer);
    }
  }

  /** The latest of these members exists and passes the page's filters. */
  ghost predicate LatestPasses(db: Database, fp: Id, f: Filters, q: Option<set<Id>>, members: set<Id>) {
    exists m :: IsLatest(db, members, m) && PassesLookup(db, f, q, Entry(CommitTs(db, m), fp, m))
  }

  lemma LookupEntry(db: Database, fp: Id, f: Filters, q: Option<set<Id>>, cursor: Option<Cursor>)
    ensures LookupEntries(db, fp, f, q, cursor) != {}
        <==> LatestPasses(db, fp, f, q, FingerprintMembers(db, fp, f, cursor))
  {
    var members := FingerprintMembers(db, fp, f, cursor);
    var entries := LookupEntries(db, fp, f, q, cursor);
    if entries != {} {
      var e :| e in entries;
      LatestEntry(db, members, e);
      assert IsLatest(db, members, e.id) && e == Entry(CommitTs(db, e.id), fp, e.id);
    }
    if LatestPasses(db, fp, f, q, members) {
      var m :| IsLatest(db, members, m) && PassesLookup(db, f, q, Entry(CommitTs(db, m), fp, m));
      assert Entry(CommitTs(db, m), fp, m) in entries;
    }
  }

  /** A lookup returns a row exactly when the newest point before the cursor passes its filters. */
  lemma LookupNonemptyIff(db: Database, fp: Id, f: Filters, q: Option<set<Id>>, cursor: Option<Cursor>, pageSize: nat)
    requires pageSize > 0
    ensures PageForFingerprint(db, fp, f, q, cursor, pageSize) != []
            <==> LatestPasses(db, fp, f, q, FingerprintMembers(db, fp, f, cursor))
  {
    var entries := LookupEntries(db, fp, f, q, cursor);
    LookupEntry(db, fp, f, q, cursor);
    SortedEntries(entries, pageSize);
    JoinCountsKeepsRows(db, FingerprintMembers(db, fp, f, cursor), Limit(Sorted(entries), pageSize));
  }

  /** Without further filters: exactly when some point is before the cursor. */
  lemma UnfilteredLookupIff(db: Database, fp: Id, f: Filters, members: set<Id>)
    requires db.Valid() && f.hardware.None? && f.repository.None?
    requires forall r | r in members :: HistoryMember(db, r) && db.results[r].fingerprint == fp
    ensures LatestPasses(db, fp, f, None, members) <==> members != {}
  {
    if members != {} {
      LatestExists(db, fp, members);
      var m :| IsLatest(db, members, m);
      assert PassesLookup(db, f, None, Entry(CommitTs(db, m), fp, m));
    }
  }

  /** Among members of one fingerprint some member is the latest. */
  lemma LatestExists(db: Database, fp: Id, members: set<Id>)
    requires members != {}
    requires forall r | r in members :: HistoryMember(db, r) && db.results[r].fingerprint == fp
    ensures exists m :: IsLatest(db, members, m)
  {
    var entries := set r | r in members :: Entry(CommitTs(db, r), fp, r);
    var x := SomeElement(members);
    assert Entry(CommitTs(db, x), fp, x) in entries;
    var e := Newest(entries);
    forall q | q in members ensures CommitTs(db, q) < e.ts || (CommitTs(db, q) == e.ts && q <= e.id) {
      assert Entry(CommitTs(db, q), fp, q) in entries;
    }
    assert IsLatest(db, members, e.id);
  }

  /** The points of the series that are older than `ts`. */
  ghost function OlderPoints(db: Database, fp: Id, f: Filters, ts: int): set<Id> {
    set r | r in FingerprintWindow(db, fp, f) && HistoryMember(db, r) && CommitTs(db, r) < ts
  }

  lemma AfterFirstPage(db: Database, fp: Id, f: Filters, ts: int)
    ensures FingerprintMembers(db, fp, f, Some(Cursor(ts, fp))) == OlderPoints(db, fp, f, ts)
  {
  }

  /**
   Following the lookup's cursor repeats the series exactly when the newest of its older points passes the
   filters: unlike browse and search, the fingerprint lookup is not a walk over distinct series.  A cursor
   is only offered with a full page, so this concerns page size 1.
   */
  lemma LookupCursorRepeatsIff(db: Database, fp: Id, f: Filters, q: Option<set<Id>>, cursor: Option<Cursor>)
    requires PageForFingerprint(db, fp, f, q, cursor, 1) != []
    ensures var first := PageForFingerprint(db, fp, f, q, cursor, 1);
            var second := PageForFingerprint(db, fp, f, q, NextCursor(first), 1);
            && (second != [] <==> LatestPasses(db, fp, f, q, OlderPoints(db, fp, f, first[0].ts)))
            && forall row | row in second :: row.fp == first[0].fp
  {
    var first := PageForFingerprint(db, fp, f, q, cursor, 1);
    LookupRowIsLatest(db, fp, f, q, cursor, 1, first[0]);
    LookupPageSize(db, fp, f, q, cursor, 1);
    var next := NextCursor(first);
    AfterFirstPage(db, fp, f, first[0].ts);
    LookupNonemptyIff(db, fp, f, q, next, 1);
    forall row | row in PageForFingerprint(db, fp, f, q, next, 1) ensures row.fp == fp {
      LookupRowIsLatest(db, fp, f, q, next, 1, row);
    }
  }

  lemma LookupPageSize(db: Database, fp: Id, f: Filters, q: Option<set<Id>>, cursor: Option<Cursor>, pageSize: nat)
    ensures |PageForFingerprint(db, fp, f, q, cursor, pageSize)| <= pageSize
  {
  }

  /** One series with two points. */
  const TWO_POINTS := Database(
    map[1 := Commit(1, Some(1), Some(10)), 2 := Commit(2, Some(2), Some(20))],
    map[1 := BenchmarkResult(7, 1, 1, 1, 1, Some(1), false), 2 := BenchmarkResult(7, 1, 1, 1, 1, Some(2), false)],
    map[1 := 1], {1}, {1})

  lemma TwoPointsLatest(members: set<Id>, row: SeriesRow)
    requires 2 in members && ShowsLatest(TWO_POINTS, members, row) && row.fp == 7
    ensures row.ts > 10
  {
    TwoPointsMembers();
  }

  lemma TwoPointsFirstPage()
    ensures PageForFingerprint(TWO_POINTS, 7, NO_FILTERS, None, None, 1) != []
    ensures PageForFingerprint(TWO_POINTS, 7, NO_FILTERS, None, None, 1)[0].ts > 10
  {
    TwoPointsMembers();
    var members := FingerprintMembers(TWO_POINTS, 7, NO_FILTERS, None);
    UnfilteredLookupIff(TWO_POINTS, 7, NO_FILTERS, members);
    LookupNonemptyIff(TWO_POINTS, 7, NO_FILTERS, None, None, 1);
    var row := PageForFingerprint(TWO_POINTS, 7, NO_FILTERS, None, None, 1)[0];
    LookupRowIsLatest(TWO_POINTS, 7, NO_FILTERS, None, None, 1, row);
    TwoPointsLatest(members, row);
  }

  lemma TwoPointsMembers()
    ensures TWO_POINTS.Valid() && TWO_POINTS.OneCasePerFingerprint()
    ensures HistoryMember(TWO_POINTS, 1) && HistoryMember(TWO_POINTS, 2)
    ensures CommitTs(TWO_POINTS, 1) == 10 && CommitTs(TWO_POINTS, 2) == 20
    ensures 1 in FingerprintMembers(TWO_POINTS, 7, NO_FILTERS, None)
    ensures 2 in FingerprintMembers(TWO_POINTS, 7, NO_FILTERS, None)
  {
  }

  /** The second page of its lookup shows the same series again. */
  lemma LookupCursorRepeats()
    ensures TWO_POINTS.Valid() && TWO_POINTS.OneCasePerFingerprint()
    ensures var first := PageForFingerprint(TWO_POINTS, 7, NO_FILTERS, None, None, 1);
            first != [] && PageForFingerprint(TWO_POINTS, 7, NO_FILTERS, None, NextCursor(first), 1) != []
  {
    TwoPointsMembers();
    TwoPointsFirstPage();
    var first := PageForFingerprint(TWO_POINTS, 7, NO_FILTERS, None, None, 1);
    var older := OlderPoints(TWO_POINTS, 7, NO_FILTERS, first[0].ts);
    assert 1 in older;
    UnfilteredLookupIff(TWO_POINTS, 7, NO_FILTERS, older);
    LookupCursorRepeatsIff(TWO_POINTS, 7, NO_FILTERS, None, None);
  }

  // ---------------------------------------------------------------------------------------
  // Why the store never runs the broad search under filters

  /** The broad search's rows come from members with nothing at or past the cursor, filtered or not. */
  lemma BroadSearchRow(
    db: Database, cases: set<Id>, f: Filters, cursor: Option<Cursor>, limit: nat, pageSize: nat, row: SeriesRow)
    requires row in PageForQRecent(db, cases, f, cursor, limit, pageSize)
    ensures NothingNewer(db, NO_FILTERS, cursor, row.fp)
  {
    var boundary := Boundary(QRecentSeed(db, f, cursor), limit);
    var members := QRecentMembers(db, cases, f, cursor, boundary);
    PageIsLimit(db, members, cursor, pageSize);
    assert row in FullList(db, members, cursor);
    ListSound(db, members, cursor, row);
  }

  /** In a strictly descending list, a prefix that holds a row holds every row above it. */
  lemma PrefixHoldsAbove(part: seq<SeriesRow>, all: seq<SeriesRow>, above: SeriesRow, below: SeriesRow)
    requires StrictlyDown(all) && part <= all
    requires below in part && above in all && RowBefore(above, below)
    ensures above in part
  {
    var i :| 0 <= i < |part| && part[i] == below;
    var j :| 0 <= j < |all| && all[j] == above;
    forall k | i <= k < |all| ensures all[k] != above {
      assert all[i] == below;
    }
    assert part[j] == above;
  }

  lemma ExactPageStrictlyDown(db: Database, cases: set<Id>, f: Filters, cursor: Option<Cursor>, pageSize: nat)
    ensures StrictlyDown(PageForQCaseIDs(db, cases, f, cursor, pageSize))
  {
    PageIsLimit(db, ExactMembers(db, cases, f), cursor, pageSize);
    ListStrictlyDown(db, ExactMembers(db, cases, f), cursor);
  }

  /**
   The NOT EXISTS of the broad search ignores the filters.  So whenever the exact list shows a
   series that also has a point at or past the cursor outside the filters, and the broad search
   shows anything below that series, the broad search's page is no prefix of the exact page.
   `NeedsCompleteSearch` keeps filtered requests away from it.
   */
  lemma FilteredBroadSearchIsNoPrefix(
    db: Database, cases: set<Id>, f: Filters, cursor: Option<Cursor>, limit: nat, pageSize: nat,
    above: SeriesRow, below: SeriesRow)
    requires above in PageForQCaseIDs(db, cases, f, cursor, pageSize)
    requires !NothingNewer(db, NO_FILTERS, cursor, above.fp)
    requires below in PageForQRecent(db, cases, f, cursor, limit, pageSize) && RowBefore(above, below)
    ensures !(PageForQRecent(db, cases, f, cursor, limit, pageSize) <= PageForQCaseIDs(db, cases, f, cursor, pageSize))
  {
    var bounded := PageForQRecent(db, cases, f, cursor, limit, pageSize);
    ExactPageStrictlyDown(db, cases, f, cursor, pageSize);
    if bounded <= PageForQCaseIDs(db, cases, f, cursor, pageSize) {
      PrefixHoldsAbove(bounded, PageForQCaseIDs(db, cases, f, cursor, pageSize), above, below);
      BroadSearchRow(db, cases, f, cursor, limit, pageSize, above);
      assert false;
    }
  }

  /** Series 8 has a point after the active window; series 7 is older. */
  const HIDDEN := Database(
    map[1 := Commit(1, Some(1), Some(5)), 2 := Commit(2, Some(2), Some(10)), 3 := Commit(3, Some(3), Some(30))],
    map[1 := BenchmarkResult(7, 1, 1, 1, 1, Some(1), false), 2 := BenchmarkResult(8, 1, 1, 1, 1, Some(2), false),
        3 := BenchmarkResult(8, 1, 1, 1, 1, Some(3), false)],
    map[1 := 1], {1}, {1})

  const UNTIL_15 := Filters(None, None, None, Some(15))
  const AT_12 := Some(Cursor(12, 0))

  lemma HiddenFacts()
    ensures HIDDEN.Valid() && HIDDEN.OneCasePerFingerprint()
    ensures HistoryMember(HIDDEN, 1) && HistoryMember(HIDDEN, 2) && HistoryMember(HIDDEN, 3)
    ensures CommitTs(HIDDEN, 1) == 5 && CommitTs(HIDDEN, 2) == 10 && CommitTs(HIDDEN, 3) == 30
    ensures FilteredMember(HIDDEN, UNTIL_15, 1) && FilteredMember(HIDDEN, UNTIL_15, 2)
        && !FilteredMember(HIDDEN, UNTIL_15, 3)
    ensures forall r | r in HIDDEN.results :: r == 1 || r == 2 || r == 3
  {
  }

  /** The exact list shows series 8 although it has a newer point outside the window. */
  lemma HiddenExact() returns (above: SeriesRow)
    ensures above in ExactList(HIDDEN, {1}, UNTIL_15, AT_12) && above.fp == 8 && above.ts == 10
    ensures !NothingNewer(HIDDEN, NO_FILTERS, AT_12, 8)
  {
    HiddenFacts();
    var members := ExactMembers(HIDDEN, {1}, UNTIL_15);
    assert IsLatest(HIDDEN, members, 2);
    ListComplete(HIDDEN, members, AT_12, 2);
    above :| above in FullList(HIDDEN, members, AT_12) && above.latestResult == 2;
    ListSound(HIDDEN, members, AT_12, above);
    assert FilteredMember(HIDDEN, NO_FILTERS, 3) && !BeforeCursor(AT_12, CommitTs(HIDDEN, 3), 8);
  }

  lemma HiddenBoundary(limit: nat)
    requires limit == |QRecentSeed(HIDDEN, UNTIL_15, AT_12)|
    ensures var b := Boundary(QRecentSeed(HIDDEN, UNTIL_15, AT_12), limit); b.Some? && b.value <= 5
  {
    HiddenFacts();
    var seed := QRecentSeed(HIDDEN, UNTIL_15, AT_12);
    assert Entry(5, 1, 1) in seed;
    assert Entry(5, 1, 1) in Limit(Sorted(seed), limit);
  }

  lemma HiddenMember(boundary: Option<int>)
    requires boundary.Some? && boundary.value <= 5
    ensures IsLatest(HIDDEN, QRecentMembers(HIDDEN, {1}, UNTIL_15, AT_12, boundary), 1)
  {
    HiddenFacts();
    assert NothingNewer(HIDDEN, NO_FILTERS, AT_12, 7);
    assert 1 in QRecentMembers(HIDDEN, {1}, UNTIL_15, AT_12, boundary);
  }

  /** The broad search shows series 7 only. */
  lemma HiddenBroad(limit: nat) returns (below: SeriesRow)
    requires limit == |QRecentSeed(HIDDEN, UNTIL_15, AT_12)|
    ensures var boundary := Boundary(QRecentSeed(HIDDEN, UNTIL_15, AT_12), limit);
            below in FullList(HIDDEN, QRecentMembers(HIDDEN, {1}, UNTIL_15, AT_12, boundary), AT_12)
    ensures below.ts == 5
  {
    HiddenFacts();
    HiddenBoundary(limit);
    var boundary := Boundary(QRecentSeed(HIDDEN, UNTIL_15, AT_12), limit);
    var members := QRecentMembers(HIDDEN, {1}, UNTIL_15, AT_12, boundary);
    HiddenMember(boundary);
    ListComplete(HIDDEN, members, AT_12, 1);
    below :| below in FullList(HIDDEN, members, AT_12) && below.latestResult == 1;
    ListSound(HIDDEN, members, AT_12, below);
  }

  /**
   A concrete request on which the broad search would have skipped a series, with an active window as its only
   filter.
   */
  lemma FilteredBroadSearchSkips() returns (limit: nat, pageSize: nat)
    ensures HIDDEN.Valid() && HIDDEN.OneCasePerFingerprint() && NeedsCompleteSearch(UNTIL_15)
    ensures !(PageForQRecent(HIDDEN, {1}, UNTIL_15, AT_12, limit, pageSize)
              <= PageForQCaseIDs(HIDDEN, {1}, UNTIL_15, AT_12, pageSize))
  {
    HiddenFacts();
    limit := |QRecentSeed(HIDDEN, UNTIL_15, AT_12)|;
    var above := HiddenExact();
    var below := HiddenBroad(limit);
    var exact := ExactMembers(HIDDEN, {1}, UNTIL_15);
    var broad := QRecentMembers(HIDDEN, {1}, UNTIL_15, AT_12, Boundary(QRecentSeed(HIDDEN, UNTIL_15, AT_12), limit));
    pageSize := |FullList(HIDDEN, exact, AT_12)| + |FullList(HIDDEN, broad, AT_12)|;
    PageIsLimit(HIDDEN, exact, AT_12, pageSize);
    PageIsLimit(HIDDEN, broad, AT_12, pageSize);
    FilteredBroadSearchIsNoPrefix(HIDDEN, {1}, UNTIL_15, AT_12, limit, pageSize, above, below);
  }
}
