/**
 What the series listing answers, in terms of the stored rows alone: which rows the exact list has, when the store
 returns the exact page, and which rows of it the two bounded queries show.
 */
module SeriesAnswers {
  import opened Options
  import opened SeriesListing

  // ---------------------------------------------------------------------------------------
  // The exact list

  /** Result r is a point of series fp at time ts: not errored, on a dated commit of the default branch. */
  ghost predicate StoredPoint(db: Database, fp: Id, r: Id, ts: int) {
    && r in db.results && db.results[r].fingerprint == fp && !db.results[r].errored
    && db.results[r].commitId.Some? && db.results[r].commitId.value in db.commits
    && var c := db.commits[db.results[r].commitId.value];
    && c.forkPoint == Some(c.sha) && c.timestamp == Some(ts)
  }

  /** ... and it passes the filters. */
  ghost predicate Point(db: Database, cases: set<Id>, f: Filters, fp: Id, r: Id, ts: int) {
    && StoredPoint(db, fp, r, ts)
    && var x := db.results[r];
    && x.caseId in cases
    && (f.hardware.Some? ==> x.hardwareId in db.hardware && db.hardware[x.hardwareId] == f.hardware.value)
    && (f.repository.Some? ==> x.repository == f.repository.value)
    && (f.since.Some? ==> f.since.value <= ts) && (f.until.Some? ==> ts <= f.until.value)
  }

  lemma PointIff(db: Database, cases: set<Id>, f: Filters, fp: Id, r: Id, ts: int)
    requires db.Valid()
    ensures Point(db, cases, f, fp, r, ts)
            <==> r in ExactMembers(db, cases, f) && HistoryMember(db, r) && db.results[r].fingerprint == fp
                 && CommitTs(db, r) == ts
  {
  }

  ghost predicate HasPoint(db: Database, fp: Id, r: Id) {
    exists ts :: StoredPoint(db, fp, r, ts)
  }

  /** What a row of the list says. */
  ghost predicate RowAnswers(db: Database, cases: set<Id>, f: Filters, cursor: Option<Cursor>, row: SeriesRow) {
    && Point(db, cases, f, row.fp, row.latestResult, row.ts)
    && (forall q, t | Point(db, cases, f, row.fp, q, t) ::
          t < row.ts || (t == row.ts && q <= row.latestResult))
    && (cursor.Some? ==>
          row.ts < cursor.value.ts || (row.ts == cursor.value.ts && row.fp < cursor.value.fp))
    && row.points == |set r | r in db.results && HasPoint(db, row.fp, r)|
  }

  lemma PointsCounted(db: Database, fp: Id)
    ensures PointCount(db, fp) == |set r | r in db.results && HasPoint(db, fp, r)|
  {
    var a := set r | r in db.results && HistoryMember(db, r) && db.results[r].fingerprint == fp;
    var b := set r | r in db.results && HasPoint(db, fp, r);
    forall r ensures r in a <==> r in b {
      if r in a {
        assert StoredPoint(db, fp, r, CommitTs(db, r));
      }
    }
    assert a == b;
  }

  lemma RowIsSound(db: Database, cases: set<Id>, f: Filters, cursor: Option<Cursor>, row: SeriesRow)
    requires db.Valid() && row in ExactList(db, cases, f, cursor)
    ensures RowAnswers(db, cases, f, cursor, row)
  {
    var members := ExactMembers(db, cases, f);
    ListSound(db, members, cursor, row);
    PointsCounted(db, row.fp);
    PointIff(db, cases, f, row.fp, row.latestResult, row.ts);
    forall q, t | Point(db, cases, f, row.fp, q, t) ensures t < row.ts || (t == row.ts && q <= row.latestResult) {
      PointIff(db, cases, f, row.fp, q, t);
    }
  }

  lemma AnswerIsLatest(db: Database, cases: set<Id>, f: Filters, cursor: Option<Cursor>, row: SeriesRow)
    requires db.Valid() && RowAnswers(db, cases, f, cursor, row)
    ensures IsLatest(db, ExactMembers(db, cases, f), row.latestResult)
    ensures CommitTs(db, row.latestResult) == row.ts && db.results[row.latestResult].fingerprint == row.fp
  {
    var members := ExactMembers(db, cases, f);
    PointIff(db, cases, f, row.fp, row.latestResult, row.ts);
    forall q | q in members && HistoryMember(db, q) && db.results[q].fingerprint == row.fp
      ensures CommitTs(db, q) < row.ts || (CommitTs(db, q) == row.ts && q <= row.latestResult)
    {
      PointIff(db, cases, f, row.fp, q, CommitTs(db, q));
    }
  }

  /** The exact list holds exactly the rows that answer for a series: its newest passing point, after the cursor. */
  lemma ExactRowIff(db: Database, cases: set<Id>, f: Filters, cursor: Option<Cursor>, row: SeriesRow)
    requires db.Valid()
    ensures row in ExactList(db, cases, f, cursor) <==> RowAnswers(db, cases, f, cursor, row)
  {
    if row in ExactList(db, cases, f, cursor) {
      RowIsSound(db, cases, f, cursor, row);
    }
    if RowAnswers(db, cases, f, cursor, row) {
      AnswerIsLatest(db, cases, f, cursor, row);
      ListComplete(db, ExactMembers(db, cases, f), cursor, row.latestResult);
      var found :| found in ExactList(db, cases, f, cursor) && found.latestResult == row.latestResult;
      RowIsSound(db, cases, f, cursor, found);
      assert found == row;
    }
  }

  // ---------------------------------------------------------------------------------------
  // The exact searches

  /** A search over at most 64 cases, or under any filter, returns exactly the first page of the exact list. */
  lemma CompleteSearchIsExact(db: Database, cases: set<Id>, f: Filters, cursor: Option<Cursor>, pageSize: nat)
    requires |cases| <= 64 || f.hardware.Some? || f.repository.Some? || f.since.Some? || f.until.Some?
    ensures StorePage(db, Search(cases), f, cursor, pageSize) == Limit(ExactList(db, cases, f, cursor), pageSize)
  {
    SearchesExactly(db, cases, f, cursor, pageSize);
    PageIsLimit(db, ExactMembers(db, cases, f), cursor, pageSize);
    if cases == {} {
      NoCasesNoRows(db, f, cursor);
    }
  }

  lemma SearchesExactly(db: Database, cases: set<Id>, f: Filters, cursor: Option<Cursor>, pageSize: nat)
    requires |cases| <= 64 || f.hardware.Some? || f.repository.Some? || f.since.Some? || f.until.Some?
    ensures StorePage(db, Search(cases), f, cursor, pageSize)
            == if cases == {} then [] else PageForQCaseIDs(db, cases, f, cursor, pageSize)
  {
  }

  lemma SearchesBroadly(db: Database, cases: set<Id>, cursor: Option<Cursor>, pageSize: nat)
    requires |cases| > 64
    ensures StorePage(db, Search(cases), NO_FILTERS, cursor, pageSize)
            == PageForQRecent(db, cases, NO_FILTERS, cursor, QRecentCommitLimit(pageSize), pageSize)
  {
  }

  lemma NoCasesNoRows(db: Database, f: Filters, cursor: Option<Cursor>)
    ensures ExactList(db, {}, f, cursor) == []
  {
    assert ExactMembers(db, {}, f) == {};
    assert Visible(db, {}, cursor) == {};
  }

  // ---------------------------------------------------------------------------------------
  // How far a window of recent commits reaches

  lemma {:induction false} SameSize(ids: set<Id>, entries: set<Entry>, ts: Id -> int)
    requires forall e :: e in entries <==> e.id in ids && e == Entry(ts(e.id), e.id, e.id)
    ensures |ids| == |entries|
    decreases |ids|
  {
    if ids == {} {
      assert entries == {};
    } else {
      var x := SomeElement(ids);
      var e := Entry(ts(x), x, x);
      assert e in entries;
      SameSize(ids - {x}, entries - {e}, ts);
    }
  }

  /**
   The boundary of a window lies at or below a candidate's time exactly when fewer than `limit` candidates are
   newer.
   */
  lemma BoundaryReaches(seed: set<Entry>, limit: nat, at: Entry)
    requires at in seed && limit > 0
    ensures var newer := set e | e in seed && e.ts > at.ts;
            Boundary(seed, limit).Some? && (Boundary(seed, limit).value <= at.ts <==> |newer| < limit)
  {
    var newer := set e | e in seed && e.ts > at.ts;
    var l, k := Sorted(seed), |newer|;
    UpwardClosedIsPrefix(newer, seed);
    forall j | 0 <= j < k ensures l[j] != at {
      assert Sorted(newer)[j] in Sorted(newer);
    }
    assert at in l;
    if k < limit {
      BoundaryBelow(seed, limit, newer, at);
    } else {
      BoundaryAbove(seed, limit, newer, at);
    }
  }

  lemma BoundaryBelow(seed: set<Entry>, limit: nat, newer: set<Entry>, at: Entry)
    requires |newer| < limit && |newer| < |Sorted(seed)| && Sorted(newer) <= Sorted(seed) && at in seed
    requires forall e :: e in newer <==> e in seed && e.ts > at.ts
    ensures Boundary(seed, limit).Some? && Boundary(seed, limit).value <= at.ts
  {
    var l, k := Sorted(seed), |newer|;
    assert l[k] in seed;
    assert l[k] !in Sorted(newer) by {
      forall j | 0 <= j < k ensures Sorted(newer)[j] != l[k] {
        assert Newer(l[j], l[k]);
      }
    }
    assert Limit(l, limit)[k] in Limit(l, limit);
  }

  lemma BoundaryAbove(seed: set<Entry>, limit: nat, newer: set<Entry>, at: Entry)
    requires 0 < limit <= |newer| && Sorted(newer) <= Sorted(seed) && seed != {}
    requires forall e :: e in newer <==> e in seed && e.ts > at.ts
    ensures Boundary(seed, limit).Some? && Boundary(seed, limit).value > at.ts
  {
    var first := Limit(Sorted(seed), limit);
    assert first == Sorted(newer)[..limit];
    forall e | e in first ensures e.ts > at.ts {
      assert e in Sorted(newer);
    }
  }

  // ---------------------------------------------------------------------------------------
  // The broad search

  /** Dated default-branch commits newer than ts and, with a cursor, before its time. */
  ghost function NewerCommits(db: Database, cursor: Option<Cursor>, ts: int): set<Id> {
    set c | c in db.commits && db.commits[c].forkPoint == Some(db.commits[c].sha)
            && db.commits[c].timestamp.Some? && db.commits[c].timestamp.value > ts
            && (cursor.Some? ==> db.commits[c].timestamp.value < cursor.value.ts)
  }

  ghost function TimeOf(db: Database): Id -> int {
    c => if c in db.commits && db.commits[c].timestamp.Some? then db.commits[c].timestamp.value else 0
  }

  lemma NewerInSeed(db: Database, cursor: Option<Cursor>, ts: int)
    ensures |NewerCommits(db, cursor, ts)| == |set e | e in QRecentSeed(db, NO_FILTERS, cursor) && e.ts > ts|
  {
    var entries := set e | e in QRecentSeed(db, NO_FILTERS, cursor) && e.ts > ts;
    SameSize(NewerCommits(db, cursor, ts), entries, TimeOf(db));
  }

  lemma WindowReaches(db: Database, cursor: Option<Cursor>, limit: nat, fp: Id, r: Id, ts: int)
    requires StoredPoint(db, fp, r, ts) && limit > 0 && (cursor.Some? ==> ts <= cursor.value.ts)
    ensures InQRecentWindow(cursor, Boundary(QRecentSeed(db, NO_FILTERS, cursor), limit), ts)
            <==> (cursor.Some? && ts == cursor.value.ts) || |NewerCommits(db, cursor, ts)| < limit
  {
    if !(cursor.Some? && ts == cursor.value.ts) {
      var c := db.results[r].commitId.value;
      BoundaryReaches(QRecentSeed(db, NO_FILTERS, cursor), limit, Entry(ts, c, c));
      NewerInSeed(db, cursor, ts);
    }
  }

  /**
   An unfiltered search over more than 64 cases shows exactly those rows of the exact page that are at the cursor's
   time or have fewer newer commits before the cursor than the window holds.
   */
  lemma BroadSearchRowIff(db: Database, cases: set<Id>, cursor: Option<Cursor>, pageSize: nat, row: SeriesRow)
    requires db.Valid() && db.OneCasePerFingerprint() && |cases| > 64
    ensures row in StorePage(db, Search(cases), NO_FILTERS, cursor, pageSize)
            <==> row in Limit(ExactList(db, cases, NO_FILTERS, cursor), pageSize)
                 && ((cursor.Some? && row.ts == cursor.value.ts)
                     || |NewerCommits(db, cursor, row.ts)| < QRecentCommitLimit(pageSize))
  {
    SearchesBroadly(db, cases, cursor, pageSize);
    RecentRowIff(db, cases, cursor, QRecentCommitLimit(pageSize), pageSize, row);
  }

  /** The bounded search query, with any window. */
  lemma RecentRowIff(
    db: Database, cases: set<Id>, cursor: Option<Cursor>, limit: nat, pageSize: nat, row: SeriesRow)
    requires db.Valid() && db.OneCasePerFingerprint() && limit > 0
    ensures row in PageForQRecent(db, cases, NO_FILTERS, cursor, limit, pageSize)
            <==> row in Limit(ExactList(db, cases, NO_FILTERS, cursor), pageSize)
                 && ((cursor.Some? && row.ts == cursor.value.ts) || |NewerCommits(db, cursor, row.ts)| < limit)
  {
    QRecentIsPrefixOfExact(db, cases, cursor, limit, pageSize);
    PageIsLimit(db, ExactMembers(db, cases, NO_FILTERS), cursor, pageSize);
    if row in Limit(ExactList(db, cases, NO_FILTERS, cursor), pageSize) {
      RowIsSound(db, cases, NO_FILTERS, cursor, row);
      WindowReaches(db, cursor, limit, row.fp, row.latestResult, row.ts);
    }
  }

  /** A row of the exact page with fewer than 320 newer commits is always shown. */
  lemma BroadSearchShowsRecent(db: Database, cases: set<Id>, cursor: Option<Cursor>, pageSize: nat, row: SeriesRow)
    requires db.Valid() && db.OneCasePerFingerprint() && |cases| > 64
    requires row in Limit(ExactList(db, cases, NO_FILTERS, cursor), pageSize)
    requires |NewerCommits(db, cursor, row.ts)| < 320
    ensures row in StorePage(db, Search(cases), NO_FILTERS, cursor, pageSize)
  {
    BroadSearchRowIff(db, cases, cursor, pageSize, row);
  }

  // ---------------------------------------------------------------------------------------
  // Browse

  /** Commit c carries a result that is not errored and passes the repository and hardware filters. */
  ghost predicate Carries(db: Database, f: Filters, c: Id) {
    exists r | r in db.results ::
      && db.results[r].commitId == Some(c) && !db.results[r].errored
      && (f.repository.Some? ==> db.results[r].repository == f.repository.value)
      && (f.hardware.Some? ==>
            db.results[r].hardwareId in db.hardware && db.hardware[db.results[r].hardwareId] == f.hardware.value)
  }

  /** The newer commits that count against a browse window: in the active window and carrying a matching result. */
  ghost function NewerCarriers(db: Database, f: Filters, cursor: Option<Cursor>, ts: int): set<Id> {
    set c | c in NewerCommits(db, cursor, ts) && c in db.commits && db.commits[c].timestamp.Some?
            && (f.since.Some? ==> f.since.value <= db.commits[c].timestamp.value)
            && (f.until.Some? ==> db.commits[c].timestamp.value <= f.until.value)
            && Carries(db, f, c)
  }

  lemma CarriesIff(db: Database, f: Filters, c: Id)
    ensures Carries(db, f, c) <==> CarriesResult(db, f, c)
  {
    if Carries(db, f, c) {
      var r :| r in db.results && db.results[r].commitId == Some(c) && !db.results[r].errored
               && (f.repository.Some? ==> db.results[r].repository == f.repository.value)
               && (f.hardware.Some? ==>
                     db.results[r].hardwareId in db.hardware
                     && db.hardware[db.results[r].hardwareId] == f.hardware.value);
      assert MatchesRepository(db, f, r) && (f.hardware.Some? ==> MatchesHardware(db, f, r));
    }
  }

  lemma CarriersInSeed(db: Database, f: Filters, cursor: Option<Cursor>, ts: int)
    ensures |NewerCarriers(db, f, cursor, ts)| == |set e | e in BrowseSeed(db, f, cursor) && e.ts > ts|
  {
    var entries := set e | e in BrowseSeed(db, f, cursor) && e.ts > ts;
    forall e
      ensures e in entries
              <==> e.id in NewerCarriers(db, f, cursor, ts) && e == Entry(TimeOf(db)(e.id), e.id, e.id)
    {
      CarriesIff(db, f, e.id);
    }
    SameSize(NewerCarriers(db, f, cursor, ts), entries, TimeOf(db));
  }

  lemma BrowseReaches(db: Database, f: Filters, cursor: Option<Cursor>, limit: nat, fp: Id, r: Id, ts: int)
    requires Point(db, db.cases, f, fp, r, ts) && limit > 0 && (cursor.Some? ==> ts <= cursor.value.ts)
    ensures InBrowseWindow(cursor, Boundary(BrowseSeed(db, f, cursor), limit), ts)
            <==> (cursor.Some? && ts == cursor.value.ts) || |NewerCarriers(db, f, cursor, ts)| < limit
  {
    if !(cursor.Some? && ts == cursor.value.ts) {
      var c := db.results[r].commitId.value;
      assert Carries(db, f, c);
      CarriesIff(db, f, c);
      BoundaryReaches(BrowseSeed(db, f, cursor), limit, Entry(ts, c, c));
      CarriersInSeed(db, f, cursor, ts);
    }
  }

  /** Browse shows exactly those rows of the exact page that its window of commits reaches. */
  lemma BrowseRowIff(db: Database, f: Filters, cursor: Option<Cursor>, pageSize: nat, row: SeriesRow)
    requires db.Valid() && db.OneCasePerFingerprint()
    ensures row in StorePage(db, Browse, f, cursor, pageSize)
            <==> row in Limit(ExactList(db, db.cases, f, cursor), pageSize)
                 && ((cursor.Some? && row.ts == cursor.value.ts)
                     || |NewerCarriers(db, f, cursor, row.ts)|
                        < BrowseCommitLimit(pageSize, cursor.Some? || f.hardware.Some?))
  {
    BrowsesWith(db, f, cursor, pageSize);
    WindowRowIff(db, f, cursor, BrowseCommitLimit(pageSize, cursor.Some? || f.hardware.Some?), pageSize, row);
  }

  lemma BrowsesWith(db: Database, f: Filters, cursor: Option<Cursor>, pageSize: nat)
    ensures StorePage(db, Browse, f, cursor, pageSize)
            == PageBrowse(db, f, cursor, BrowseCommitLimit(pageSize, cursor.Some? || f.hardware.Some?), pageSize)
  {
  }

  /** The browse query, with any window. */
  lemma WindowRowIff(db: Database, f: Filters, cursor: Option<Cursor>, limit: nat, pageSize: nat, row: SeriesRow)
    requires db.Valid() && limit > 0
    ensures row in PageBrowse(db, f, cursor, limit, pageSize)
            <==> row in Limit(ExactList(db, db.cases, f, cursor), pageSize)
                 && ((cursor.Some? && row.ts == cursor.value.ts) || |NewerCarriers(db, f, cursor, row.ts)| < limit)
  {
    BrowseIsPrefixOfExact(db, f, cursor, limit, pageSize);
    PageIsLimit(db, ExactMembers(db, db.cases, f), cursor, pageSize);
    if row in Limit(ExactList(db, db.cases, f, cursor), pageSize) {
      RowIsSound(db, db.cases, f, cursor, row);
      BrowseReaches(db, f, cursor, limit, row.fp, row.latestResult, row.ts);
    }
  }

  /**
   A row of the exact page with fewer than 80 newer candidate commits, 512 after a cursor or by hardware, is
   shown.
   */
  lemma BrowseShowsRecent(db: Database, f: Filters, cursor: Option<Cursor>, pageSize: nat, row: SeriesRow)
    requires db.Valid() && db.OneCasePerFingerprint()
    requires row in Limit(ExactList(db, db.cases, f, cursor), pageSize)
    requires |NewerCarriers(db, f, cursor, row.ts)| < if cursor.Some? || f.hardware.Some? then 512 else 80
    ensures row in StorePage(db, Browse, f, cursor, pageSize)
  {
    BrowseRowIff(db, f, cursor, pageSize, row);
  }

  /** The windows grow with the page, between fixed bounds. */
  lemma WindowSizes(pageSize: nat)
    ensures QRecentCommitLimit(pageSize)
            == if pageSize <= 10 then 320 else if pageSize >= 16 then 512 else 32 * pageSize
    ensures BrowseCommitLimit(pageSize, false)
            == if pageSize <= 26 then 80 else if pageSize >= 54 then 160 else 3 * pageSize
    ensures BrowseCommitLimit(pageSize, true) == 512
  {
  }
}
