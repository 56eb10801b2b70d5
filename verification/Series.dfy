/**
 The series listing of internal/db/series.sql.go: "latest result per fingerprint, newest
 first, after this cursor".

 One query (`SelectSeriesPageForQCaseIDs`) computes the list exactly.  Two others start from
 a bounded window of recent commits.  The main results say that both bounded queries return a
 prefix of the exact list, say when they return all of it, and that following cursors
 enumerates a prefix of the exact list without repeating a series.
 */
module SeriesListing {
  import opened Options

  /** Primary keys, fingerprints, names and repository URLs.  Only their total order matters. */
  type Id = int

  datatype Commit = Commit(sha: Id, forkPoint: Option<Id>, timestamp: Option<int>)

  datatype BenchmarkResult = BenchmarkResult(
    fingerprint: Id, caseId: Id, contextId: Id, hardwareId: Id, repository: Id,
    commitId: Option<Id>, errored: bool)

  /** The tables, keyed by primary key; `hardware` maps an id to the hardware name. */
  datatype Database = Database(
    commits: map<Id, Commit>, results: map<Id, BenchmarkResult>, hardware: map<Id, Id>,
    cases: set<Id>, contexts: set<Id>)
  {
    /** The foreign keys of benchmark_result. */
    predicate Valid() {
      forall r | r in results ::
        && results[r].caseId in cases
        && results[r].contextId in contexts
        && results[r].hardwareId in hardware
        && (results[r].commitId.Some? ==> results[r].commitId.value in commits)
    }

    /** A fingerprint is a hash of the case (among others), so it belongs to one case. */
    predicate OneCasePerFingerprint() {
      forall r, q | r in results && q in results && results[r].fingerprint == results[q].fingerprint ::
        results[r].caseId == results[q].caseId
    }
  }

  datatype Filters = Filters(hardware: Option<Id>, repository: Option<Id>, since: Option<int>, until: Option<int>)

  const NO_FILTERS := Filters(None, None, None, None)

  datatype Cursor = Cursor(ts: int, fp: Id)

  /** The SQL row comparison `(ts, fp) < (cursor_ts, cursor_fp)`, true when there is no cursor. */
  predicate BeforeCursor(cursor: Option<Cursor>, ts: int, fp: Id) {
    cursor.None? || ts < cursor.value.ts || (ts == cursor.value.ts && fp < cursor.value.fp)
  }

  predicate OnDefaultBranch(c: Commit) {
    c.forkPoint == Some(c.sha) && c.timestamp.Some?
  }

  /** What belongs to a series' history: non-errored, on a dated default-branch commit. */
  predicate HistoryMember(db: Database, r: Id) {
    && r in db.results
    && !db.results[r].errored
    && db.results[r].commitId.Some?
    && db.results[r].commitId.value in db.commits
    && OnDefaultBranch(db.commits[db.results[r].commitId.value])
  }

  function CommitTs(db: Database, r: Id): int
    requires HistoryMember(db, r)
  {
    db.commits[db.results[r].commitId.value].timestamp.value
  }

  predicate InActiveWindow(f: Filters, ts: int) {
    (f.since.Some? ==> f.since.value <= ts) && (f.until.Some? ==> ts <= f.until.value)
  }

  predicate MatchesHardware(db: Database, f: Filters, r: Id)
    requires r in db.results
  {
    var h := db.results[r].hardwareId;
    h in db.hardware && (f.hardware.Some? ==> db.hardware[h] == f.hardware.value)
  }

  predicate MatchesRepository(db: Database, f: Filters, r: Id)
    requires r in db.results
  {
    f.repository.Some? ==> db.results[r].repository == f.repository.value
  }

  /** A history member that passes every filter. */
  predicate FilteredMember(db: Database, f: Filters, r: Id) {
    && HistoryMember(db, r)
    && MatchesHardware(db, f, r)
    && MatchesRepository(db, f, r)
    && InActiveWindow(f, CommitTs(db, r))
  }

  // ---------------------------------------------------------------------------------------
  // ORDER BY ... DESC and LIMIT

  /** A sortable row: a commit (tie == id) or the latest result of a series (tie == fingerprint). */
  datatype Entry = Entry(ts: int, tie: Id, id: Id)

  predicate Newer(a: Entry, b: Entry) {
    a.ts > b.ts || (a.ts == b.ts && (a.tie > b.tie || (a.tie == b.tie && a.id > b.id)))
  }

  ghost predicate IsNewest(m: Entry, s: set<Entry>) {
    m in s && forall e | e in s :: e == m || Newer(m, e)
  }

  lemma {:induction false} NewestExists(s: set<Entry>)
    requires s != {}
    ensures exists m :: IsNewest(m, s)
  {
    var x :| x in s;
    if s == {x} {
      assert IsNewest(x, s);
    } else {
      NewestExists(s - {x});
      var m :| IsNewest(m, s - {x});
      assert forall e | e in s :: e == x || e in s - {x};
      if Newer(m, x) { assert IsNewest(m, s); } else { assert IsNewest(x, s); }
    }
  }

  ghost function Newest(s: set<Entry>): (m: Entry)
    requires s != {}
    ensures IsNewest(m, s)
  {
    NewestExists(s);
    var m :| IsNewest(m, s);
    m
  }

  /** The rows of `s` in descending order. */
  ghost function Sorted(s: set<Entry>): (l: seq<Entry>)
    ensures |l| == |s|
    ensures forall e :: e in l <==> e in s
    ensures Descending(l)
  {
    if s == {} then [] else
      var m := Newest(s);
      [m] + Sorted(s - {m})
  }

  function Limit<T>(l: seq<T>, n: nat): (r: seq<T>)
    ensures r <= l && |r| <= n
    ensures |r| < n ==> r == l
  {
    if |l| <= n then l else l[..n]
  }

  /** Keeping an upward-closed part of a set keeps a prefix of its sorted list. */
  lemma {:induction false} UpwardClosedIsPrefix(part: set<Entry>, all: set<Entry>)
    requires part <= all
    requires forall x, y | x in all && y in part && Newer(x, y) :: x in part
    ensures Sorted(part) <= Sorted(all)
    decreases all
  {
    if part != {} {
      var m := Newest(all);
      var y :| y in part;
      assert m in part;
      assert Newest(part) == m;
      UpwardClosedIsPrefix(part - {m}, all - {m});
    }
  }

  predicate Descending(l: seq<Entry>) {
    forall i, j | 0 <= i < j < |l| :: Newer(l[i], l[j])
  }

  /** A descending list is determined by its elements. */
  lemma {:induction false} SortedUnique(l: seq<Entry>, s: set<Entry>)
    requires Descending(l)
    requires forall e :: e in l <==> e in s
    ensures l == Sorted(s)
    decreases |l|
  {
    if l == [] {
      assert s == {};
    } else {
      var m := l[0];
      assert m in s;
      forall e | e in s ensures e == m || Newer(m, e) {
        var i :| 0 <= i < |l| && l[i] == e;
      }
      assert Newest(s) == m;
      forall e ensures e in l[1..] <==> e in s - {m} {
        if e in l[1..] {
          var i :| 0 < i < |l| && l[i] == e;
          assert Newer(l[0], l[i]);
        }
      }
      SortedUnique(l[1..], s - {m});
    }
  }

  /** Removing everything down to the n-th row leaves the list from there on. */
  lemma SortedAfter(all: set<Entry>, n: nat)
    requires 0 < n <= |all|
    ensures Sorted(set e | e in all && Newer(Sorted(all)[n-1], e)) == Sorted(all)[n..]
  {
    var l := Sorted(all);
    var rest := set e | e in all && Newer(l[n-1], e);
    forall e ensures e in l[n..] <==> e in rest {
      if e in rest {
        var i :| 0 <= i < |l| && l[i] == e;
        assert i >= n;
      }
    }
    SortedUnique(l[n..], rest);
  }

  lemma LimitPrefix<T>(a: seq<T>, b: seq<T>, n: nat)
    requires a <= b
    ensures Limit(a, n) <= Limit(b, n)
  {
  }

  // ---------------------------------------------------------------------------------------
  // latest, page and counts: the tail shared by all queries

  /** `m` comes first among the members of its fingerprint under DISTINCT ON's order. */
  ghost predicate IsLatest(db: Database, members: set<Id>, m: Id) {
    && m in members
    && HistoryMember(db, m)
    && forall q | q in members && HistoryMember(db, q) && db.results[q].fingerprint == db.results[m].fingerprint ::
        CommitTs(db, q) < CommitTs(db, m) || (CommitTs(db, q) == CommitTs(db, m) && q <= m)
  }

  /** DISTINCT ON (history_fingerprint) ... ORDER BY commit_timestamp DESC, id DESC. */
  ghost function Latest(db: Database, members: set<Id>): set<Entry> {
    set m | m in members && IsLatest(db, members, m) :: Entry(CommitTs(db, m), db.results[m].fingerprint, m)
  }

  /** What an entry of `Latest` is. */
  lemma LatestEntry(db: Database, members: set<Id>, e: Entry)
    requires e in Latest(db, members)
    ensures IsLatest(db, members, e.id)
    ensures e == Entry(CommitTs(db, e.id), db.results[e.id].fingerprint, e.id)
  {
    var m :| m in members && IsLatest(db, members, m) && e == Entry(CommitTs(db, m), db.results[m].fingerprint, m);
  }

  /** The page's joins on case, context and hardware, and its cursor condition. */
  ghost predicate OnPage(db: Database, cursor: Option<Cursor>, e: Entry) {
    && e.id in db.results
    && db.results[e.id].caseId in db.cases
    && db.results[e.id].contextId in db.contexts
    && db.results[e.id].hardwareId in db.hardware
    && BeforeCursor(cursor, e.ts, e.tie)
  }

  ghost function Visible(db: Database, members: set<Id>, cursor: Option<Cursor>): set<Entry> {
    set e | e in Latest(db, members) && OnPage(db, cursor, e)
  }

  /** counts: the number of history members of a fingerprint, whatever the filters. */
  ghost function PointCount(db: Database, fp: Id): nat {
    |set r | r in db.results && HistoryMember(db, r) && db.results[r].fingerprint == fp|
  }

  datatype SeriesRow = SeriesRow(fp: Id, latestResult: Id, ts: int, points: nat)

  /** The final SELECT: page joined with counts, which has a row for every counted fingerprint. */
  ghost function JoinCounts(db: Database, page: seq<Entry>): (rows: seq<SeriesRow>)
    ensures |rows| <= |page|
  {
    if page == [] then [] else
      var e := page[0];
      var n := PointCount(db, e.tie);
      (if n == 0 then [] else [SeriesRow(e.tie, e.id, e.ts, n)]) + JoinCounts(db, page[1..])
  }

  ghost function ToRow(db: Database, e: Entry): SeriesRow {
    SeriesRow(e.tie, e.id, e.ts, PointCount(db, e.tie))
  }

  /** The counts join neither drops nor repeats a row of the page. */
  lemma {:induction false} JoinCountsKeepsRows(db: Database, members: set<Id>, page: seq<Entry>)
    requires forall e | e in page :: e in Latest(db, members)
    ensures |JoinCounts(db, page)| == |page|
    ensures forall i | 0 <= i < |page| :: JoinCounts(db, page)[i] == ToRow(db, page[i])
  {
    if page != [] {
      var e := page[0];
      LatestEntry(db, members, e);
      var counted := set r | r in db.results && HistoryMember(db, r) && db.results[r].fingerprint == e.tie;
      assert e.id in counted;
      assert PointCount(db, e.tie) == |counted| > 0;
      JoinCountsKeepsRows(db, members, page[1..]);
    }
  }

  /** Every row a query over these members would show after the cursor, before LIMIT. */
  ghost function FullList(db: Database, members: set<Id>, cursor: Option<Cursor>): seq<SeriesRow> {
    JoinCounts(db, Sorted(Visible(db, members, cursor)))
  }

  // ---------------------------------------------------------------------------------------
  // SelectSeriesPageForQCaseIDs: the exact query

  ghost function ExactMembers(db: Database, cases: set<Id>, f: Filters): set<Id> {
    set r | r in db.results && db.results[r].caseId in cases && FilteredMember(db, f, r)
  }

  /** The whole exact list after the cursor, before LIMIT. */
  ghost function ExactList(db: Database, cases: set<Id>, f: Filters, cursor: Option<Cursor>): seq<SeriesRow> {
    FullList(db, ExactMembers(db, cases, f), cursor)
  }

  ghost function PageForQCaseIDs(
    db: Database, cases: set<Id>, f: Filters, cursor: Option<Cursor>, pageSize: nat): seq<SeriesRow>
  {
    JoinCounts(db, Limit(Sorted(Visible(db, ExactMembers(db, cases, f), cursor)), pageSize))
  }

  // ---------------------------------------------------------------------------------------
  // The recent-commit window of the bounded queries

  /** recent_commit_boundary: the smallest timestamp among the first `limit` candidate commits. */
  ghost function Boundary(seed: set<Entry>, limit: nat): (b: Option<int>)
    ensures b.None? <==> seed == {} || limit == 0
    ensures b.Some? ==> exists e | e in seed :: e.ts == b.value
  {
    var l := Limit(Sorted(seed), limit);
    if l == [] then None else Some(MinTs(l))
  }

  ghost function MinTs(l: seq<Entry>): (m: int)
    requires l != []
    ensures forall e | e in l :: m <= e.ts
    ensures exists e | e in l :: e.ts == m
  {
    if |l| == 1 then assert l[0] in l; l[0].ts else
      var rest := MinTs(l[1..]);
      assert forall e | e in l :: e == l[0] || e in l[1..];
      if l[0].ts < rest then assert l[0] in l; l[0].ts else
        assert exists e | e in l :: e.ts == rest by { var e :| e in l[1..] && e.ts == rest; assert e in l; }
        rest
  }

  /** NOT EXISTS newer: no member of the fingerprint, under the query's own filters, at or past the cursor. */
  ghost predicate NothingNewer(db: Database, f: Filters, cursor: Option<Cursor>, fp: Id) {
    cursor.None? ||
    forall q | q in db.results && FilteredMember(db, f, q) && db.results[q].fingerprint == fp ::
      BeforeCursor(cursor, CommitTs(db, q), fp)
  }

  // SelectSeriesPageForQRecent

  ghost function QRecentSeed(db: Database, f: Filters, cursor: Option<Cursor>): set<Entry> {
    set c | c in db.commits
            && OnDefaultBranch(db.commits[c])
            && (f.until.Some? ==> db.commits[c].timestamp.value <= f.until.value)
            && (cursor.Some? ==> db.commits[c].timestamp.value < cursor.value.ts)
         :: Entry(db.commits[c].timestamp.value, c, c)
  }

  /** recent_commit: ties on the cursor's timestamp, or inside the window down to the boundary. */
  predicate InQRecentWindow(cursor: Option<Cursor>, boundary: Option<int>, ts: int) {
    || (cursor.Some? && ts == cursor.value.ts)
    || ((cursor.Some? ==> ts < cursor.value.ts) && (boundary.Some? ==> boundary.value <= ts))
  }

  ghost function QRecentMembers(
    db: Database, cases: set<Id>, f: Filters, cursor: Option<Cursor>, boundary: Option<int>): set<Id>
  {
    // The NOT EXISTS subquery of this query carries no filter at all.
    set r | r in db.results
            && db.results[r].caseId in cases
            && FilteredMember(db, f, r)
            && InQRecentWindow(cursor, boundary, CommitTs(db, r))
            && NothingNewer(db, NO_FILTERS, cursor, db.results[r].fingerprint)
  }

  ghost function PageForQRecent(
    db: Database, cases: set<Id>, f: Filters, cursor: Option<Cursor>, limit: nat, pageSize: nat): seq<SeriesRow>
  {
    var boundary := Boundary(QRecentSeed(db, f, cursor), limit);
    JoinCounts(db, Limit(Sorted(Visible(db, QRecentMembers(db, cases, f, cursor, boundary), cursor)), pageSize))
  }

  // SelectSeriesPage (default browse)

  /** The EXISTS clause of the browse window: the commit carries a non-errored result that passes the filters. */
  ghost predicate CarriesResult(db: Database, f: Filters, c: Id) {
    exists r | r in db.results ::
      && db.results[r].commitId == Some(c)
      && !db.results[r].errored
      && MatchesRepository(db, f, r)
      && (f.hardware.Some? ==> MatchesHardware(db, f, r))
  }

  ghost function BrowseSeed(db: Database, f: Filters, cursor: Option<Cursor>): set<Entry> {
    set c | c in db.commits
            && OnDefaultBranch(db.commits[c])
            && InActiveWindow(f, db.commits[c].timestamp.value)
            && (cursor.Some? ==> db.commits[c].timestamp.value < cursor.value.ts)
            && CarriesResult(db, f, c)
         :: Entry(db.commits[c].timestamp.value, c, c)
  }

  /** Unlike the search window, an empty seed closes the browse window (`IS NOT NULL AND`). */
  predicate InBrowseWindow(cursor: Option<Cursor>, boundary: Option<int>, ts: int) {
    || (cursor.Some? && ts == cursor.value.ts)
    || ((cursor.Some? ==> ts < cursor.value.ts) && boundary.Some? && boundary.value <= ts)
  }

  ghost function BrowseMembers(db: Database, f: Filters, cursor: Option<Cursor>, boundary: Option<int>): set<Id> {
    set r | r in db.results
            && FilteredMember(db, f, r)
            && InBrowseWindow(cursor, boundary, CommitTs(db, r))
            && CarriesResult(db, f, db.results[r].commitId.value)
            && NothingNewer(db, f, cursor, db.results[r].fingerprint)
  }

  ghost function PageBrowse(
    db: Database, f: Filters, cursor: Option<Cursor>, limit: nat, pageSize: nat): seq<SeriesRow>
  {
    var boundary := Boundary(BrowseSeed(db, f, cursor), limit);
    // page's own filters on hardware, repository and the active window repeat those of members
    var visible := set e | e in Visible(db, BrowseMembers(db, f, cursor, boundary), cursor)
                           && FilteredMember(db, f, e.id);
    JoinCounts(db, Limit(Sorted(visible), pageSize))
  }

  // ---------------------------------------------------------------------------------------
  // Bounded pages are prefixes of the exact page

  /** Going down from the cursor, once a timestamp is inside the window all larger ones are. */
  ghost predicate WindowBelowCursor(window: int -> bool, cursor: Option<Cursor>) {
    forall t, u | window(t) && t <= u && (cursor.Some? ==> u <= cursor.value.ts) :: window(u)
  }

  ghost predicate AllBeforeCursor(db: Database, members: set<Id>, cursor: Option<Cursor>, fp: Id) {
    forall q | q in members && HistoryMember(db, q) && db.results[q].fingerprint == fp ::
      BeforeCursor(cursor, CommitTs(db, q), fp)
  }

  /** `bounded` is what the window and NOT EXISTS leave of `exact`. */
  ghost predicate Windowed(
    db: Database, exact: set<Id>, bounded: set<Id>, cursor: Option<Cursor>, window: int -> bool)
    requires forall r | r in exact :: HistoryMember(db, r)
  {
    forall r :: r in bounded <==>
      && r in exact
      && window(CommitTs(db, r))
      && AllBeforeCursor(db, exact, cursor, db.results[r].fingerprint)
  }

  /** The bounded entries are exactly the exact entries inside the window, with the same latest results. */
  lemma WindowedEntries(
    db: Database, exact: set<Id>, bounded: set<Id>, cursor: Option<Cursor>, window: int -> bool)
    requires forall r | r in exact :: HistoryMember(db, r)
    requires Windowed(db, exact, bounded, cursor, window)
    requires WindowBelowCursor(window, cursor)
    ensures Visible(db, bounded, cursor) == set e | e in Visible(db, exact, cursor) && window(e.ts)
  {
    forall e | e in Visible(db, bounded, cursor)
      ensures e in Visible(db, exact, cursor) && window(e.ts)
    {
      LatestEntry(db, bounded, e);
      forall q | q in exact && db.results[q].fingerprint == e.tie
        ensures CommitTs(db, q) < e.ts || (CommitTs(db, q) == e.ts && q <= e.id)
      {
        if e.ts <= CommitTs(db, q) {
          assert BeforeCursor(cursor, CommitTs(db, q), e.tie);
          assert q in bounded;
        }
      }
      assert IsLatest(db, exact, e.id);
    }
    forall e | e in Visible(db, exact, cursor) && window(e.ts)
      ensures e in Visible(db, bounded, cursor)
    {
      LatestEntry(db, exact, e);
      assert e.id in bounded;
      assert IsLatest(db, bounded, e.id);
    }
  }

  /** ... so the bounded page is a prefix, and the whole page exactly when the window covers the page. */
  lemma WindowedPrefix(exact: set<Entry>, cursor: Option<Cursor>, window: int -> bool, pageSize: nat)
    requires forall e | e in exact :: BeforeCursor(cursor, e.ts, e.tie)
    requires WindowBelowCursor(window, cursor)
    ensures var part := Limit(Sorted(set e | e in exact && window(e.ts)), pageSize);
            var all := Limit(Sorted(exact), pageSize);
            && part <= all && (part == all <==> forall e | e in all :: window(e.ts))
            && forall e | e in all :: e in part <==> window(e.ts)
  {
    var kept := set e | e in exact && window(e.ts);
    UpwardClosedIsPrefix(kept, exact);
    LimitPrefix(Sorted(kept), Sorted(exact), pageSize);
    var part, all := Limit(Sorted(kept), pageSize), Limit(Sorted(exact), pageSize);
    if part == all {
      assert forall e | e in all :: e in Sorted(kept);
    } else {
      // The bounded page is short, so the row after it is outside the window.
      var e := all[|part|];
      assert part == Sorted(kept);
      assert e == Sorted(exact)[|part|] && e !in part by {
        forall j | 0 <= j < |part| ensures part[j] != e {
          assert Newer(Sorted(exact)[j], Sorted(exact)[|part|]);
        }
      }
      assert e in Sorted(exact) && e !in kept && e in all;
    }
    forall e | e in all ensures e in part <==> window(e.ts) {
      assert e in Sorted(exact) && (e in part ==> e in Sorted(kept));
    }
  }

  /** Turning entries into rows one by one keeps the prefix and its completeness condition. */
  lemma RowsPrefix(
    db: Database, part: seq<Entry>, all: seq<Entry>, bounded: seq<SeriesRow>, full: seq<SeriesRow>, window: int -> bool)
    requires part <= all && |bounded| == |part| && |full| == |all|
    requires forall i | 0 <= i < |part| :: bounded[i] == ToRow(db, part[i])
    requires forall i | 0 <= i < |all| :: full[i] == ToRow(db, all[i])
    requires part == all <==> forall e | e in all :: window(e.ts)
    requires forall e | e in all :: e in part <==> window(e.ts)
    ensures bounded <= full
    ensures bounded == full <==> forall row | row in full :: window(row.ts)
    ensures forall row | row in full :: row in bounded <==> window(row.ts)
  {
    forall row | row in full ensures row in bounded <==> window(row.ts) {
      var i :| 0 <= i < |full| && full[i] == row;
      assert all[i] in all;
      if window(row.ts) {
        var j :| 0 <= j < |part| && part[j] == all[i];
        assert bounded[j] == row;
      }
      if row in bounded {
        var j :| 0 <= j < |bounded| && bounded[j] == row;
        assert part[j] in part && all[j] in all;
      }
    }
    assert forall i | 0 <= i < |full| :: full[i] in full && all[i] in all && full[i].ts == all[i].ts;
    if part == all {
      forall row | row in full ensures window(row.ts) {
        var i :| 0 <= i < |full| && full[i] == row;
      }
    } else {
      var e :| e in all && !window(e.ts);
      var i :| 0 <= i < |all| && all[i] == e;
      assert full[i] in full;
    }
  }

  lemma PagePrefix(
    db: Database, members: set<Id>, exact: set<Entry>, cursor: Option<Cursor>, window: int -> bool, pageSize: nat)
    requires forall e | e in exact :: e in Latest(db, members) && BeforeCursor(cursor, e.ts, e.tie)
    requires WindowBelowCursor(window, cursor)
    ensures var bounded := JoinCounts(db, Limit(Sorted(set e | e in exact && window(e.ts)), pageSize));
            var full := JoinCounts(db, Limit(Sorted(exact), pageSize));
            && bounded <= full
            && (bounded == full <==> forall row | row in full :: window(row.ts))
            && forall row | row in full :: row in bounded <==> window(row.ts)
  {
    WindowedPrefix(exact, cursor, window, pageSize);
    var kept := set e | e in exact && window(e.ts);
    var part, all := Limit(Sorted(kept), pageSize), Limit(Sorted(exact), pageSize);
    SortedEntries(kept, pageSize);
    SortedEntries(exact, pageSize);
    JoinCountsKeepsRows(db, members, part);
    JoinCountsKeepsRows(db, members, all);
    RowsPrefix(db, part, all, JoinCounts(db, part), JoinCounts(db, all), window);
  }

  lemma SortedEntries(s: set<Entry>, n: nat)
    ensures forall e | e in Limit(Sorted(s), n) :: e in s
  {
    var l := Sorted(s);
    assert forall e | e in Limit(l, n) :: e in l;
  }

  /**
   The broad search returns a prefix of the exact search, for every database, cursor, window
   limit and page size; and it returns the whole exact page exactly when the window reaches
   down to every row of it.
   */
  lemma QRecentIsPrefixOfExact(
    db: Database, cases: set<Id>, cursor: Option<Cursor>, limit: nat, pageSize: nat)
    requires db.Valid() && db.OneCasePerFingerprint()
    ensures var bounded := PageForQRecent(db, cases, NO_FILTERS, cursor, limit, pageSize);
            var full := PageForQCaseIDs(db, cases, NO_FILTERS, cursor, pageSize);
            var boundary := Boundary(QRecentSeed(db, NO_FILTERS, cursor), limit);
            && bounded <= full
            && (bounded == full <==> forall row | row in full :: InQRecentWindow(cursor, boundary, row.ts))
            && forall row | row in full :: row in bounded <==> InQRecentWindow(cursor, boundary, row.ts)
  {
    var boundary := Boundary(QRecentSeed(db, NO_FILTERS, cursor), limit);
    var window := (t: int) => InQRecentWindow(cursor, boundary, t);
    var exact := ExactMembers(db, cases, NO_FILTERS);
    var bounded := QRecentMembers(db, cases, NO_FILTERS, cursor, boundary);
    assert WindowBelowCursor(window, cursor);
    assert Windowed(db, exact, bounded, cursor, window) by {
      forall r | r in exact
        ensures NothingNewer(db, NO_FILTERS, cursor, db.results[r].fingerprint) <==>
                AllBeforeCursor(db, exact, cursor, db.results[r].fingerprint)
      {
        assert forall q | q in db.results && FilteredMember(db, NO_FILTERS, q)
                          && db.results[q].fingerprint == db.results[r].fingerprint :: q in exact;
      }
    }
    WindowedEntries(db, exact, bounded, cursor, window);
    PagePrefix(db, exact, Visible(db, exact, cursor), cursor, window, pageSize);
  }

  lemma BrowseIsWindowed(
    db: Database, f: Filters, cursor: Option<Cursor>, boundary: Option<int>, window: int -> bool)
    requires db.Valid() && forall t :: window(t) <==> InBrowseWindow(cursor, boundary, t)
    ensures var exact := ExactMembers(db, db.cases, f);
            && (forall r | r in exact :: HistoryMember(db, r))
            && Windowed(db, exact, BrowseMembers(db, f, cursor, boundary), cursor, window)
            && WindowBelowCursor(window, cursor)
  {
    var exact := ExactMembers(db, db.cases, f);
    forall r | r in exact
      ensures r in db.results && CarriesResult(db, f, db.results[r].commitId.value)
      ensures NothingNewer(db, f, cursor, db.results[r].fingerprint) <==>
              AllBeforeCursor(db, exact, cursor, db.results[r].fingerprint)
    {
      assert forall q | q in db.results && FilteredMember(db, f, q)
                        && db.results[q].fingerprint == db.results[r].fingerprint :: q in exact;
    }
  }

  /** The filters the page repeats drop nothing. */
  lemma BrowseFiltersTwice(db: Database, f: Filters, cursor: Option<Cursor>, boundary: Option<int>)
    ensures var visible := Visible(db, BrowseMembers(db, f, cursor, boundary), cursor);
            visible == set e | e in visible && FilteredMember(db, f, e.id)
  {
    var bounded := BrowseMembers(db, f, cursor, boundary);
    forall e | e in Visible(db, bounded, cursor) ensures FilteredMember(db, f, e.id) {
      LatestEntry(db, bounded, e);
    }
  }

  /** The same for the default browse query, under any filters, against the exact query over all cases. */
  lemma BrowseIsPrefixOfExact(db: Database, f: Filters, cursor: Option<Cursor>, limit: nat, pageSize: nat)
    requires db.Valid()
    ensures var bounded := PageBrowse(db, f, cursor, limit, pageSize);
            var full := PageForQCaseIDs(db, db.cases, f, cursor, pageSize);
            var boundary := Boundary(BrowseSeed(db, f, cursor), limit);
            && bounded <= full
            && (bounded == full <==> forall row | row in full :: InBrowseWindow(cursor, boundary, row.ts))
            && forall row | row in full :: row in bounded <==> InBrowseWindow(cursor, boundary, row.ts)
  {
    var boundary := Boundary(BrowseSeed(db, f, cursor), limit);
    var window := (t: int) => InBrowseWindow(cursor, boundary, t);
    var exact := ExactMembers(db, db.cases, f);
    var bounded := BrowseMembers(db, f, cursor, boundary);
    BrowseIsWindowed(db, f, cursor, boundary, window);
    WindowedEntries(db, exact, bounded, cursor, window);
    BrowseFiltersTwice(db, f, cursor, boundary);
    PagePrefix(db, exact, Visible(db, exact, cursor), cursor, window, pageSize);
  }

  // ---------------------------------------------------------------------------------------
  // What the exact list is

  /** DISTINCT ON leaves one entry per fingerprint. */
  lemma LatestOnePerFingerprint(db: Database, members: set<Id>, a: Entry, b: Entry)
    requires a in Latest(db, members) && b in Latest(db, members) && a.tie == b.tie
    ensures a == b
  {
    LatestEntry(db, members, a);
    LatestEntry(db, members, b);
  }

  ghost predicate RowBefore(a: SeriesRow, b: SeriesRow) {
    a.ts > b.ts || (a.ts == b.ts && a.fp > b.fp)
  }

  /** `row` shows the latest of the given members of its series. */
  ghost predicate ShowsLatest(db: Database, members: set<Id>, row: SeriesRow) {
    && IsLatest(db, members, row.latestResult)
    && row.fp == db.results[row.latestResult].fingerprint
    && row.ts == CommitTs(db, row.latestResult)
    && row.points == PointCount(db, row.fp) > 0
  }

  lemma ListRows(db: Database, members: set<Id>, cursor: Option<Cursor>)
    ensures var entries := Sorted(Visible(db, members, cursor));
            && |FullList(db, members, cursor)| == |entries|
            && forall i | 0 <= i < |entries| :: FullList(db, members, cursor)[i] == ToRow(db, entries[i])
  {
    JoinCountsKeepsRows(db, members, Sorted(Visible(db, members, cursor)));
  }

  lemma RowShowsLatest(db: Database, members: set<Id>, e: Entry)
    requires e in Latest(db, members)
    ensures ShowsLatest(db, members, ToRow(db, e))
  {
    LatestEntry(db, members, e);
    var counted := set r | r in db.results && HistoryMember(db, r) && db.results[r].fingerprint == e.tie;
    assert e.id in counted;
    assert PointCount(db, e.tie) == |counted|;
  }

  lemma EntriesInOrder(db: Database, members: set<Id>, cursor: Option<Cursor>, i: nat, j: nat)
    requires i < j < |Sorted(Visible(db, members, cursor))|
    ensures var l := Sorted(Visible(db, members, cursor));
            RowBefore(ToRow(db, l[i]), ToRow(db, l[j])) && l[i].tie != l[j].tie
  {
    var l := Sorted(Visible(db, members, cursor));
    assert l[i] in l && l[j] in l && Newer(l[i], l[j]);
    if l[i].tie == l[j].tie {
      LatestOnePerFingerprint(db, members, l[i], l[j]);
    }
  }

  ghost predicate StrictlyDown(rows: seq<SeriesRow>) {
    forall i, j | 0 <= i < j < |rows| :: RowBefore(rows[i], rows[j]) && rows[i].fp != rows[j].fp
  }

  /** The rows go strictly down and no series appears twice. */
  lemma ListStrictlyDown(db: Database, members: set<Id>, cursor: Option<Cursor>)
    ensures StrictlyDown(FullList(db, members, cursor))
  {
    var l, entries := FullList(db, members, cursor), Sorted(Visible(db, members, cursor));
    ListRows(db, members, cursor);
    forall i, j | 0 <= i < j < |l| ensures RowBefore(l[i], l[j]) && l[i].fp != l[j].fp {
      EntriesInOrder(db, members, cursor, i, j);
    }
  }

  /** Every row shows the true latest of its series and lies after the cursor. */
  lemma ListSound(db: Database, members: set<Id>, cursor: Option<Cursor>, row: SeriesRow)
    requires row in FullList(db, members, cursor)
    ensures ShowsLatest(db, members, row) && BeforeCursor(cursor, row.ts, row.fp)
  {
    var l, entries := FullList(db, members, cursor), Sorted(Visible(db, members, cursor));
    ListRows(db, members, cursor);
    var i :| 0 <= i < |l| && l[i] == row;
    assert entries[i] in entries;
    RowShowsLatest(db, members, entries[i]);
  }

  /** ... and no series is missing: each latest result before the cursor has its row. */
  lemma ListComplete(db: Database, members: set<Id>, cursor: Option<Cursor>, m: Id)
    requires db.Valid()
    requires IsLatest(db, members, m)
    requires BeforeCursor(cursor, CommitTs(db, m), db.results[m].fingerprint)
    ensures exists row | row in FullList(db, members, cursor) :: row.latestResult == m
  {
    var l, entries := FullList(db, members, cursor), Sorted(Visible(db, members, cursor));
    ListRows(db, members, cursor);
    var e := Entry(CommitTs(db, m), db.results[m].fingerprint, m);
    assert e in Visible(db, members, cursor);
    var i :| 0 <= i < |entries| && entries[i] == e;
    assert l[i] == ToRow(db, e) && l[i] in l;
  }

  /** Limiting the entries is limiting the rows. */
  lemma PageIsLimit(db: Database, members: set<Id>, cursor: Option<Cursor>, pageSize: nat)
    ensures JoinCounts(db, Limit(Sorted(Visible(db, members, cursor)), pageSize))
            == Limit(FullList(db, members, cursor), pageSize)
  {
    var entries := Sorted(Visible(db, members, cursor));
    ListRows(db, members, cursor);
    SortedEntries(Visible(db, members, cursor), pageSize);
    JoinCountsKeepsRows(db, members, Limit(entries, pageSize));
  }

  /** The entries visible after the cursor of the n-th entry are those below it. */
  lemma VisibleAfter(db: Database, members: set<Id>, cursor: Option<Cursor>, last: Entry)
    requires last in Visible(db, members, cursor)
    ensures Visible(db, members, Some(Cursor(last.ts, last.tie)))
            == set e | e in Visible(db, members, cursor) && Newer(last, e)
  {
    var next := Some(Cursor(last.ts, last.tie));
    forall e | e in Latest(db, members)
      ensures BeforeCursor(next, e.ts, e.tie) <==> BeforeCursor(cursor, e.ts, e.tie) && Newer(last, e)
    {
      if e.tie == last.tie {
        LatestOnePerFingerprint(db, members, e, last);
      }
    }
  }

  /** Rows of a suffix of the entries are the suffix of the rows. */
  lemma RowsOfSuffix(db: Database, entries: seq<Entry>, l: seq<SeriesRow>, rest: seq<SeriesRow>, n: nat)
    requires n <= |entries| == |l| && |rest| == |entries| - n
    requires forall i | 0 <= i < |l| :: l[i] == ToRow(db, entries[i])
    requires forall i | 0 <= i < |rest| :: rest[i] == ToRow(db, entries[n..][i])
    ensures rest == l[n..]
  {
  }

  /** The list after the cursor of its n-th row is the rest of the list. */
  lemma ListAfter(db: Database, members: set<Id>, cursor: Option<Cursor>, n: nat)
    requires 0 < n <= |FullList(db, members, cursor)|
    ensures var l := FullList(db, members, cursor);
            FullList(db, members, Some(Cursor(l[n-1].ts, l[n-1].fp))) == l[n..]
  {
    ListRows(db, members, cursor);
    var entries := Sorted(Visible(db, members, cursor));
    var last := entries[n-1];
    assert last in entries;
    var next := Some(Cursor(last.ts, last.tie));
    assert Sorted(Visible(db, members, next)) == entries[n..] by {
      VisibleAfter(db, members, cursor, last);
      SortedAfter(Visible(db, members, cursor), n);
    }
    ListRows(db, members, next);
    RowsOfSuffix(db, entries, FullList(db, members, cursor), FullList(db, members, next), n);
  }

  // ---------------------------------------------------------------------------------------
  // The store's dispatch and the walk along cursors

  const SERIES_Q_COMPLETE_CASE_LIMIT := 64

  function Clamp(low: nat, n: nat, high: nat): (r: nat)
    requires low <= high
    ensures low <= r <= high
  {
    if n < low then low else if n > high then high else n
  }

  function QRecentCommitLimit(pageSize: nat): nat {
    Clamp(320, pageSize * 32, 512)
  }

  function BrowseCommitLimit(pageSize: nat, scoped: bool): nat {
    var limit := Clamp(80, pageSize * 3, 160);
    if scoped && limit < 512 then 512 else limit
  }

  /** seriesQNeedsCompleteSearch. */
  predicate NeedsCompleteSearch(f: Filters) {
    f.hardware.Some? || f.repository.Some? || f.since.Some? || f.until.Some?
  }

  /** A listing request: default browse, or a text search already resolved to case ids. */
  datatype Request = Browse | Search(cases: set<Id>)

  function Scope(db: Database, req: Request): set<Id> {
    if req.Browse? then db.cases else req.cases
  }

  /** Store.SelectSeriesPage. */
  ghost function StorePage(
    db: Database, req: Request, f: Filters, cursor: Option<Cursor>, pageSize: nat): seq<SeriesRow>
  {
    match req
    case Browse =>
      PageBrowse(db, f, cursor, BrowseCommitLimit(pageSize, cursor.Some? || f.hardware.Some?), pageSize)
    case Search(cases) => SearchPage(db, cases, f, cursor, pageSize)
  }

  /** Every page the store returns, whichever query it picks, is a prefix of the exact query's page. */
  lemma StorePageIsExactPrefix(db: Database, req: Request, f: Filters, cursor: Option<Cursor>, pageSize: nat)
    requires db.Valid() && db.OneCasePerFingerprint()
    ensures StorePage(db, req, f, cursor, pageSize) <= PageForQCaseIDs(db, Scope(db, req), f, cursor, pageSize)
  {
    if req.Browse? {
      BrowsePrefix(db, f, cursor, BrowseCommitLimit(pageSize, cursor.Some? || f.hardware.Some?), pageSize);
    } else {
      SearchPrefix(db, req.cases, f, cursor, pageSize);
    }
  }

  /** Store.SelectSeriesPage for a text search. */
  ghost function SearchPage(
    db: Database, cases: set<Id>, f: Filters, cursor: Option<Cursor>, pageSize: nat): seq<SeriesRow>
  {
    if cases == {} then []
    else if |cases| <= SERIES_Q_COMPLETE_CASE_LIMIT || NeedsCompleteSearch(f) then
      PageForQCaseIDs(db, cases, f, cursor, pageSize)
    else
      PageForQRecent(db, cases, f, cursor, QRecentCommitLimit(pageSize), pageSize)
  }

  lemma SearchPrefix(db: Database, cases: set<Id>, f: Filters, cursor: Option<Cursor>, pageSize: nat)
    requires db.Valid() && db.OneCasePerFingerprint()
    ensures SearchPage(db, cases, f, cursor, pageSize) <= PageForQCaseIDs(db, cases, f, cursor, pageSize)
  {
    if cases == {} {
      assert SearchPage(db, cases, f, cursor, pageSize) == [];
    } else if |cases| <= SERIES_Q_COMPLETE_CASE_LIMIT || NeedsCompleteSearch(f) {
      assert SearchPage(db, cases, f, cursor, pageSize) == PageForQCaseIDs(db, cases, f, cursor, pageSize);
    } else {
      QRecentPrefix(db, cases, f, cursor, QRecentCommitLimit(pageSize), pageSize);
    }
  }

  lemma BrowsePrefix(db: Database, f: Filters, cursor: Option<Cursor>, limit: nat, pageSize: nat)
    requires db.Valid()
    ensures PageBrowse(db, f, cursor, limit, pageSize) <= PageForQCaseIDs(db, db.cases, f, cursor, pageSize)
  {
    BrowseIsPrefixOfExact(db, f, cursor, limit, pageSize);
  }

  lemma QRecentPrefix(
    db: Database, cases: set<Id>, f: Filters, cursor: Option<Cursor>, limit: nat, pageSize: nat)
    requires db.Valid() && db.OneCasePerFingerprint() && !NeedsCompleteSearch(f)
    ensures PageForQRecent(db, cases, f, cursor, limit, pageSize) <= PageForQCaseIDs(db, cases, f, cursor, pageSize)
  {
    assert f == NO_FILTERS;
    QRecentIsPrefixOfExact(db, cases, cursor, limit, pageSize);
  }

  lemma StorePageIsPrefix(db: Database, req: Request, f: Filters, cursor: Option<Cursor>, pageSize: nat)
    requires db.Valid() && db.OneCasePerFingerprint()
    ensures StorePage(db, req, f, cursor, pageSize) <= Limit(ExactList(db, Scope(db, req), f, cursor), pageSize)
  {
    StorePageIsExactPrefix(db, req, f, cursor, pageSize);
    PageIsLimit(db, ExactMembers(db, Scope(db, req), f), cursor, pageSize);
  }

  function NextCursor(page: seq<SeriesRow>): Option<Cursor>
    requires page != []
  {
    Some(Cursor(page[|page|-1].ts, page[|page|-1].fp))
  }

  /** Following next cursors for `more` further pages; a cursor is given only with a full page. */
  ghost function WalkPages(
    pageOf: Option<Cursor> -> seq<SeriesRow>, cursor: Option<Cursor>, pageSize: nat, more: nat): seq<SeriesRow>
    requires pageSize > 0
    decreases more
  {
    var page := pageOf(cursor);
    if more == 0 || |page| != pageSize then page else
      page + WalkPages(pageOf, NextCursor(page), pageSize, more - 1)
  }

  /** If each page is a prefix of a list that continues at the next cursor, so is the whole walk. */
  lemma {:induction false} WalkPagesPrefix(
    pageOf: Option<Cursor> -> seq<SeriesRow>, listOf: Option<Cursor> -> seq<SeriesRow>,
    cursor: Option<Cursor>, pageSize: nat, more: nat)
    requires pageSize > 0
    requires forall c :: pageOf(c) <= listOf(c)
    requires forall c :: |pageOf(c)| == pageSize ==> listOf(NextCursor(pageOf(c))) == listOf(c)[pageSize..]
    ensures WalkPages(pageOf, cursor, pageSize, more) <= listOf(cursor)
    decreases more
  {
    var page, l := pageOf(cursor), listOf(cursor);
    if more > 0 && |page| == pageSize {
      var rest := WalkPages(pageOf, NextCursor(page), pageSize, more - 1);
      WalkPagesPrefix(pageOf, listOf, NextCursor(page), pageSize, more - 1);
      assert page + rest <= page + l[pageSize..] == l;
    }
  }

  /** After a full page the exact list continues exactly where the page ended. */
  lemma FullPageContinues(db: Database, req: Request, f: Filters, cursor: Option<Cursor>, pageSize: nat)
    requires pageSize > 0
    requires db.Valid() && db.OneCasePerFingerprint()
    requires |StorePage(db, req, f, cursor, pageSize)| == pageSize
    ensures var page := StorePage(db, req, f, cursor, pageSize);
            var l := ExactList(db, Scope(db, req), f, cursor);
            page <= l && ExactList(db, Scope(db, req), f, NextCursor(page)) == l[pageSize..]
  {
    StorePageIsPrefix(db, req, f, cursor, pageSize);
    ListAfter(db, ExactMembers(db, Scope(db, req), f), cursor, pageSize);
  }

  /** All rows a client sees that follows `more` next cursors over a fixed database. */
  ghost function Walk(
    db: Database, req: Request, f: Filters, cursor: Option<Cursor>, pageSize: nat, more: nat): seq<SeriesRow>
    requires pageSize > 0
  {
    WalkPages(c => StorePage(db, req, f, c, pageSize), cursor, pageSize, more)
  }

  /** A walk of any length enumerates a prefix of the exact list. */
  lemma WalkIsPrefix(db: Database, req: Request, f: Filters, cursor: Option<Cursor>, pageSize: nat, more: nat)
    requires pageSize > 0
    requires db.Valid() && db.OneCasePerFingerprint()
    ensures Walk(db, req, f, cursor, pageSize, more) <= ExactList(db, Scope(db, req), f, cursor)
  {
    var pageOf := c => StorePage(db, req, f, c, pageSize);
    var listOf := c => ExactList(db, Scope(db, req), f, c);
    forall c ensures pageOf(c) <= listOf(c)
             ensures |pageOf(c)| == pageSize ==> listOf(NextCursor(pageOf(c))) == listOf(c)[pageSize..] {
      StorePageIsPrefix(db, req, f, c, pageSize);
      if |pageOf(c)| == pageSize {
        FullPageContinues(db, req, f, c, pageSize);
      }
    }
    WalkPagesPrefix(pageOf, listOf, cursor, pageSize, more);
  }

  lemma PrefixShowsLatest(db: Database, members: set<Id>, cursor: Option<Cursor>, w: seq<SeriesRow>)
    requires w <= FullList(db, members, cursor)
    ensures StrictlyDown(w) && forall row | row in w :: ShowsLatest(db, members, row)
  {
    ListStrictlyDown(db, members, cursor);
    forall row | row in w ensures ShowsLatest(db, members, row) {
      assert row in FullList(db, members, cursor);
      ListSound(db, members, cursor, row);
    }
  }

  /** So a walk never repeats a series, moves strictly down, and each of its rows shows the true latest. */
  lemma WalkNeverRepeats(db: Database, req: Request, f: Filters, cursor: Option<Cursor>, pageSize: nat, more: nat)
    requires pageSize > 0
    requires db.Valid() && db.OneCasePerFingerprint()
    ensures var w := Walk(db, req, f, cursor, pageSize, more);
            StrictlyDown(w) && forall row | row in w :: ShowsLatest(db, ExactMembers(db, Scope(db, req), f), row)
  {
    WalkIsPrefix(db, req, f, cursor, pageSize, more);
    var w := Walk(db, req, f, cursor, pageSize, more);
    PrefixShowsLatest(db, ExactMembers(db, Scope(db, req), f), cursor, w);
  }
}
