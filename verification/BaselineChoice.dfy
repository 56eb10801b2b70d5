/**
 findBaselineRun (internal/service/ci_report.go): candidates are gathered commit by commit through
 maps that are ranged over in no particular order, sorted by an unstable sort, and the first one is
 taken.  Run ids, commit ids and fingerprints are integers; only their order matters.
 */
module BaselineChoice {
  import opened Options

  type RunId = int
  type CommitId = int
  type Fingerprint = int
  type Key = (RunId, CommitId)

  datatype Commit = Commit(id: CommitId, timestamp: Option<int>)
  datatype RunRow = RunRow(runId: RunId, commitId: Option<CommitId>, reason: Option<string>)
  datatype ResultRow = ResultRow(runId: RunId, commitId: Option<CommitId>, fingerprint: Fingerprint, timestamp: int)

  datatype Candidate = Candidate(
    runId: RunId, commitId: CommitId, reason: Option<string>, commit: Commit, depth: nat,
    resultTimestamp: int, sameReason: bool)

  /** The contender, its rows' fingerprints, the ancestry, the runs found at each ancestor, the stored results. */
  datatype Input = Input(
    contender: RunRow, fingerprints: set<Fingerprint>, ancestry: seq<Commit>, runs: seq<seq<RunRow>>,
    results: seq<ResultRow>)

  predicate Valid(q: Input) {
    |q.runs| == |q.ancestry|
  }

  // ---------------------------------------------------------------------------------------
  // What a candidate is

  function KeyOf(r: ResultRow): Option<Key> {
    if r.commitId.None? then None else Some((r.runId, r.commitId.value))
  }

  predicate IsContender(contender: RunRow, run: RunRow) {
    run.runId == contender.runId && contender.commitId.Some? && run.commitId == contender.commitId
  }

  predicate Eligible(contender: RunRow, run: RunRow, key: Key) {
    run.runId == key.0 && run.commitId == Some(key.1) && !IsContender(contender, run)
  }

  /** The metadata kept for a run key: the last eligible row, since later ones overwrite. */
  function MetaOf(contender: RunRow, runs: seq<RunRow>, key: Key): (meta: Option<RunRow>)
    ensures meta.Some? ==> meta.value in runs && Eligible(contender, meta.value, key)
    ensures meta.None? ==> forall i | 0 <= i < |runs| :: !Eligible(contender, runs[i], key)
  {
    if runs == [] then None
    else if Eligible(contender, runs[|runs| - 1], key) then Some(runs[|runs| - 1])
    else MetaOf(contender, runs[..|runs| - 1], key)
  }

  /** A row of this run with one of these fingerprints. */
  predicate Shares(r: ResultRow, fingerprints: set<Fingerprint>, key: Key) {
    KeyOf(r) == Some(key) && r.fingerprint in fingerprints
  }

  ghost predicate IsLatest(results: seq<ResultRow>, fingerprints: set<Fingerprint>, key: Key, at: int) {
    && (exists r | r in results :: Shares(r, fingerprints, key) && r.timestamp == at)
    && (forall r | r in results && Shares(r, fingerprints, key) :: r.timestamp <= at)
  }

  ghost predicate IsCandidate(q: Input, c: Candidate)
    requires Valid(q)
  {
    && c.depth < |q.ancestry| && c.commit == q.ancestry[c.depth]
    && var meta := MetaOf(q.contender, q.runs[c.depth], (c.runId, c.commitId));
    && meta.Some? && c.reason == meta.value.reason && c.sameReason == (q.contender.reason == meta.value.reason)
    && IsLatest(q.results, q.fingerprints, (c.runId, c.commitId), c.resultTimestamp)
  }

  // ---------------------------------------------------------------------------------------
  // The comparator

  /** The less function of sort.Slice: a is the better candidate. */
  predicate Better(a: Candidate, b: Candidate) {
    if a.sameReason != b.sameReason then a.sameReason
    else if a.commit.timestamp != b.commit.timestamp then
      a.commit.timestamp.Some? && (b.commit.timestamp.Some? ==> a.commit.timestamp.value > b.commit.timestamp.value)
    else if a.resultTimestamp != b.resultTimestamp then a.resultTimestamp > b.resultTimestamp
    else if a.runId != b.runId then a.runId > b.runId
    else a.commitId > b.commitId
  }

  /** The comparator cannot tell them apart. */
  predicate SameRank(a: Candidate, b: Candidate) {
    && a.sameReason == b.sameReason && a.commit.timestamp == b.commit.timestamp
    && a.resultTimestamp == b.resultTimestamp && a.runId == b.runId && a.commitId == b.commitId
  }

  lemma BetterIsStrict(a: Candidate, b: Candidate)
    ensures !(Better(a, b) && Better(b, a))
    ensures Better(a, b) || Better(b, a) <==> !SameRank(a, b)
  {
  }

  lemma BetterIsTransitive(a: Candidate, b: Candidate, c: Candidate)
    ensures Better(a, b) && !Better(c, b) ==> Better(a, c)
    ensures !Better(b, a) && Better(b, c) ==> Better(a, c)
    ensures !Better(b, a) && !Better(c, b) ==> !Better(c, a)
  {
  }

  // ---------------------------------------------------------------------------------------
  // The choice is determined

  /** A candidate that no candidate beats. */
  ghost predicate IsBest(q: Input, c: Candidate)
    requires Valid(q)
  {
    IsCandidate(q, c) && forall d: Candidate | IsCandidate(q, d) :: !Better(d, c)
  }

  /** SelectCIReportRunsByCommit joins on the commit, and the ancestry walk meets each commit once. */
  predicate Lineage(q: Input)
    requires Valid(q)
  {
    && (forall d, i | 0 <= d < |q.runs| && 0 <= i < |q.runs[d]| :: q.runs[d][i].commitId == Some(q.ancestry[d].id))
    && (forall d, e | 0 <= d < e < |q.ancestry| :: q.ancestry[d].id != q.ancestry[e].id)
  }

  /** With distinct ancestry commits no two candidates rank the same: the comparator is a strict total order. */
  lemma RankDeterminesCandidate(q: Input, a: Candidate, b: Candidate)
    requires Valid(q) && Lineage(q) && IsCandidate(q, a) && IsCandidate(q, b)
    ensures a == b || Better(a, b) || Better(b, a)
  {
    BetterIsStrict(a, b);
    if SameRank(a, b) {
      CommitOfCandidate(q, a);
      CommitOfCandidate(q, b);
      assert a.depth == b.depth;
    }
  }

  lemma CommitOfCandidate(q: Input, c: Candidate)
    requires Valid(q) && Lineage(q) && IsCandidate(q, c)
    ensures c.commitId == q.ancestry[c.depth].id
  {
    var meta := MetaOf(q.contender, q.runs[c.depth], (c.runId, c.commitId));
    var i :| 0 <= i < |q.runs[c.depth]| && q.runs[c.depth][i] == meta.value;
  }

  /** So whatever order maps and sort leave the candidates in, the same run is chosen. */
  lemma BestIsUnique(q: Input, a: Candidate, b: Candidate)
    requires Valid(q) && Lineage(q) && IsBest(q, a) && IsBest(q, b)
    ensures a == b
  {
    RankDeterminesCandidate(q, a, b);
  }

  /** The chosen run lies in the ancestry, shares a fingerprint with the contender and is not the contender. */
  lemma BestIsSound(q: Input, c: Candidate)
    requires Valid(q) && Lineage(q) && IsBest(q, c)
    ensures c.depth < |q.ancestry| && c.commitId == q.ancestry[c.depth].id
    ensures exists r | r in q.results ::
              && r.runId == c.runId && r.commitId == Some(c.commitId) && r.fingerprint in q.fingerprints
              && r.timestamp == c.resultTimestamp
    ensures !(q.contender.commitId == Some(c.commitId) && q.contender.runId == c.runId)
  {
    CommitOfCandidate(q, c);
    var r :| r in q.results && Shares(r, q.fingerprints, (c.runId, c.commitId)) && r.timestamp == c.resultTimestamp;
  }

  /**
   Why the chosen candidate was preferred to any other: a run of the contender's reason first, then the newer dated
   commit, then the newer result, then the greater run id, then the greater commit id.
   */
  lemma BestMeaning(q: Input, c: Candidate, d: Candidate)
    requires Valid(q) && IsBest(q, c) && IsCandidate(q, d)
    ensures d.sameReason ==> c.sameReason
    ensures c.sameReason == d.sameReason && d.commit.timestamp.Some? ==>
              c.commit.timestamp.Some? && d.commit.timestamp.value <= c.commit.timestamp.value
    ensures c.sameReason == d.sameReason && c.commit.timestamp == d.commit.timestamp ==>
              d.resultTimestamp <= c.resultTimestamp
    ensures c.sameReason == d.sameReason && c.commit.timestamp == d.commit.timestamp
            && c.resultTimestamp == d.resultTimestamp ==>
              d.runId < c.runId || (d.runId == c.runId && d.commitId <= c.commitId)
  {
  }

  /** Commit times fall along the ancestry, as they do when every commit is dated after its parent. */
  predicate Falling(ancestry: seq<Commit>) {
    forall i, j | 0 <= i < j < |ancestry| ::
      && ancestry[i].timestamp.Some? && ancestry[j].timestamp.Some?
      && ancestry[j].timestamp.value < ancestry[i].timestamp.value
  }

  /** Then the nearest ancestor with a candidate of the preferred kind is chosen. */
  lemma NearestIsChosen(q: Input, c: Candidate, d: Candidate)
    requires Valid(q) && Falling(q.ancestry) && IsBest(q, c) && IsCandidate(q, d) && c.sameReason == d.sameReason
    ensures c.depth <= d.depth
  {
    BestMeaning(q, c, d);
  }

  /**
   What a candidate is, in the rows' own terms: a run recorded at that ancestor, other than the contender, with a result
   of one of the contender's series; its time is that of the newest such result.
   */
  lemma CandidateMeaning(q: Input, c: Candidate)
    requires Valid(q) && IsCandidate(q, c)
    ensures exists run | run in q.runs[c.depth] ::
              && run.runId == c.runId && run.commitId == Some(c.commitId) && run.reason == c.reason
              && (c.sameReason <==> run.reason == q.contender.reason)
    ensures !(q.contender.runId == c.runId && q.contender.commitId == Some(c.commitId))
    ensures c.commit == q.ancestry[c.depth]
    ensures forall r | r in q.results && r.runId == c.runId && r.commitId == Some(c.commitId)
                       && r.fingerprint in q.fingerprints :: r.timestamp <= c.resultTimestamp
    ensures exists r | r in q.results :: r.runId == c.runId && r.commitId == Some(c.commitId)
                       && r.fingerprint in q.fingerprints && r.timestamp == c.resultTimestamp
  {
    var key := (c.runId, c.commitId);
    var r :| r in q.results && Shares(r, q.fingerprints, key) && r.timestamp == c.resultTimestamp;
    forall x | x in q.results && x.runId == c.runId && x.commitId == Some(c.commitId) && x.fingerprint in q.fingerprints
      ensures x.timestamp <= c.resultTimestamp
    {
      assert Shares(x, q.fingerprints, key);
    }
  }

  /** And every such run gives a candidate. */
  lemma RunIsCandidate(q: Input, depth: nat, run: RunRow, r: ResultRow)
    requires Valid(q) && depth < |q.ancestry| && run in q.runs[depth] && run.commitId.Some? && r in q.results
    requires !(q.contender.runId == run.runId && q.contender.commitId == run.commitId)
    requires r.runId == run.runId && r.commitId == run.commitId && r.fingerprint in q.fingerprints
    ensures exists c: Candidate ::
              IsCandidate(q, c) && c.depth == depth && c.runId == run.runId && Some(c.commitId) == run.commitId
  {
    var key := (run.runId, run.commitId.value);
    var i :| 0 <= i < |q.runs[depth]| && q.runs[depth][i] == run;
    assert Eligible(q.contender, run, key);
    var meta := MetaOf(q.contender, q.runs[depth], key).value;
    assert Shares(r, q.fingerprints, key);
    var at := LatestExists(q.results, q.fingerprints, key, r);
    var c := Candidate(
      key.0, key.1, meta.reason, q.ancestry[depth], depth, at, q.contender.reason == meta.reason);
    assert IsCandidate(q, c);
  }

  lemma {:induction false} LatestExists(results: seq<ResultRow>, fingerprints: set<Fingerprint>, key: Key, r: ResultRow)
    returns (at: int)
    requires r in results && Shares(r, fingerprints, key)
    ensures IsLatest(results, fingerprints, key, at)
    decreases |results|
  {
    var n := |results| - 1;
    var x, rest := results[n], results[..n];
    assert forall y | y in results :: y == x || y in rest;
    if y :| y in rest && Shares(y, fingerprints, key) {
      at := LatestExists(rest, fingerprints, key, y);
      if Shares(x, fingerprints, key) && x.timestamp > at {
        at := x.timestamp;
        assert x in results;
      } else {
        var z :| z in rest && Shares(z, fingerprints, key) && z.timestamp == at;
        assert z in results;
      }
    } else {
      at := r.timestamp;
    }
  }

  // ---------------------------------------------------------------------------------------
  // The procedure

  ghost predicate MetaMap(contender: RunRow, runs: seq<RunRow>, meta: map<Key, RunRow>) {
    forall key: Key ::
      if key in meta then MetaOf(contender, runs, key) == Some(meta[key]) else MetaOf(contender, runs, key) == None
  }

  method CollectRuns(contender: RunRow, runs: seq<RunRow>) returns (meta: map<Key, RunRow>)
    ensures MetaMap(contender, runs, meta)
  {
    meta := map[];
    for i := 0 to |runs|
      invariant MetaMap(contender, runs[..i], meta)
    {
      var run := runs[i];
      assert runs[..i + 1][..i] == runs[..i];
      if run.commitId.Some? && !IsContender(contender, run) {
        meta := meta[(run.runId, run.commitId.value) := run];
      }
    }
    assert runs[..|runs|] == runs;
  }

  /**
   SelectCIReportRows for these run keys and no baseline; that a key asked for twice repeats its rows does not
   matter here.
   */
  function RowsOf(results: seq<ResultRow>, keys: set<Key>): (rows: seq<ResultRow>)
    ensures forall r :: r in rows <==> r in results && KeyOf(r).Some? && KeyOf(r).value in keys
  {
    if results == [] then [] else
      var rest := RowsOf(results[..|results| - 1], keys);
      var r := results[|results| - 1];
      if KeyOf(r).Some? && KeyOf(r).value in keys then rest + [r] else rest
  }

  ghost predicate LatestMap(rows: seq<ResultRow>, fingerprints: set<Fingerprint>, latest: map<Key, int>) {
    && (forall key | key in latest :: IsLatest(rows, fingerprints, key, latest[key]))
    && (forall r | r in rows && r.fingerprint in fingerprints && KeyOf(r).Some? :: KeyOf(r).value in latest)
  }

  lemma IsLatestGrows(rows: seq<ResultRow>, fingerprints: set<Fingerprint>, key: Key, at: int, r: ResultRow)
    requires IsLatest(rows, fingerprints, key, at)
    requires !Shares(r, fingerprints, key) || r.timestamp <= at
    ensures IsLatest(rows + [r], fingerprints, key, at)
  {
    var x :| x in rows && Shares(x, fingerprints, key) && x.timestamp == at;
    assert x in rows + [r];
  }

  lemma IsLatestNew(rows: seq<ResultRow>, fingerprints: set<Fingerprint>, key: Key, r: ResultRow)
    requires Shares(r, fingerprints, key)
    requires forall x | x in rows && Shares(x, fingerprints, key) :: x.timestamp <= r.timestamp
    ensures IsLatest(rows + [r], fingerprints, key, r.timestamp)
  {
    assert r in rows + [r];
  }

  method CollectLatest(rows: seq<ResultRow>, fingerprints: set<Fingerprint>) returns (latest: map<Key, int>)
    ensures LatestMap(rows, fingerprints, latest)
  {
    latest := map[];
    for i := 0 to |rows|
      invariant LatestMap(rows[..i], fingerprints, latest)
    {
      var r := rows[i];
      ghost var before := latest;
      assert rows[..i + 1] == rows[..i] + [r];
      if r.fingerprint in fingerprints && r.commitId.Some? {
        var key := (r.runId, r.commitId.value);
        if key !in latest || r.timestamp > latest[key] {
          latest := latest[key := r.timestamp];
          IsLatestNew(rows[..i], fingerprints, key, r);
        } else {
          IsLatestGrows(rows[..i], fingerprints, key, latest[key], r);
        }
        forall k | k in before && k != key ensures IsLatest(rows[..i + 1], fingerprints, k, before[k]) {
          IsLatestGrows(rows[..i], fingerprints, k, before[k], r);
        }
      } else {
        forall k | k in before ensures IsLatest(rows[..i + 1], fingerprints, k, before[k]) {
          IsLatestGrows(rows[..i], fingerprints, k, before[k], r);
        }
      }
    }
    assert rows[..|rows|] == rows;
  }

  /** The candidates contributed by one ancestor. */
  ghost predicate FromDepth(q: Input, depth: nat, c: Candidate)
    requires Valid(q)
  {
    c.depth == depth && IsCandidate(q, c)
  }

  function MakeCandidate(q: Input, depth: nat, key: Key, meta: RunRow, at: int): Candidate
    requires Valid(q) && depth < |q.ancestry|
  {
    Candidate(key.0, key.1, meta.reason, q.ancestry[depth], depth, at, q.contender.reason == meta.reason)
  }

  /** The keys that came out of an ancestor's maps are exactly its candidates. */
  lemma MapsGiveCandidates(q: Input, depth: nat, meta: map<Key, RunRow>, latest: map<Key, int>)
    requires Valid(q) && depth < |q.ancestry| && MetaMap(q.contender, q.runs[depth], meta)
    requires LatestMap(RowsOf(q.results, meta.Keys), q.fingerprints, latest)
    ensures forall key | key in latest ::
        key in meta && IsCandidate(q, MakeCandidate(q, depth, key, meta[key], latest[key]))
    ensures forall c: Candidate | FromDepth(q, depth, c) ::
              var key := (c.runId, c.commitId);
              key in latest && c == MakeCandidate(q, depth, key, meta[key], latest[key])
  {
    var rows := RowsOf(q.results, meta.Keys);
    forall key | key in latest
      ensures key in meta && IsCandidate(q, MakeCandidate(q, depth, key, meta[key], latest[key]))
    {
      LatestCarriesOver(q, meta.Keys, key, latest[key]);
    }
    forall c: Candidate | FromDepth(q, depth, c)
      ensures var key := (c.runId, c.commitId);
              key in latest && c == MakeCandidate(q, depth, key, meta[key], latest[key])
    {
      var key := (c.runId, c.commitId);
      assert key in meta;
      var r :| r in q.results && Shares(r, q.fingerprints, key) && r.timestamp == c.resultTimestamp;
      assert r in rows;
      LatestCarriesOver(q, meta.Keys, key, latest[key]);
      LatestIsUnique(q.results, q.fingerprints, key, c.resultTimestamp, latest[key]);
    }
  }

  lemma LatestCarriesOver(q: Input, keys: set<Key>, key: Key, at: int)
    requires IsLatest(RowsOf(q.results, keys), q.fingerprints, key, at)
    ensures key in keys && IsLatest(q.results, q.fingerprints, key, at)
  {
    var rows := RowsOf(q.results, keys);
    var r :| r in rows && Shares(r, q.fingerprints, key) && r.timestamp == at;
    assert forall x | x in q.results && Shares(x, q.fingerprints, key) :: x in rows;
  }

  lemma LatestIsUnique(results: seq<ResultRow>, fingerprints: set<Fingerprint>, key: Key, a: int, b: int)
    requires IsLatest(results, fingerprints, key, a) && IsLatest(results, fingerprints, key, b)
    ensures a == b
  {
  }

  /** `for runKey, ts := range latestByRunKey`, in whatever order the map yields. */
  method Gather(q: Input, depth: nat) returns (found: seq<Candidate>)
    requires Valid(q) && depth < |q.ancestry|
    ensures forall c: Candidate :: c in found <==> FromDepth(q, depth, c)
  {
    var meta := CollectRuns(q.contender, q.runs[depth]);
    var latest := CollectLatest(RowsOf(q.results, meta.Keys), q.fingerprints);
    MapsGiveCandidates(q, depth, meta, latest);
    found := [];
    var remaining := latest.Keys;
    while remaining != {}
      invariant remaining <= latest.Keys
      invariant forall c | c in found :: FromDepth(q, depth, c)
      invariant forall key | key in latest.Keys - remaining ::
          MakeCandidate(q, depth, key, meta[key], latest[key]) in found
      decreases |remaining|
    {
      var key :| key in remaining;
      found := found + [MakeCandidate(q, depth, key, meta[key], latest[key])];
      remaining := remaining - {key};
    }
  }

  ghost predicate Sorted(s: seq<Candidate>) {
    forall i, j | 0 <= i < j < |s| :: !Better(s[j], s[i])
  }

  /** sort.Slice; nothing but this contract is used, in particular not how ties fall. */
  method SortCandidates(found: seq<Candidate>) returns (s: seq<Candidate>)
    ensures Sorted(s) && |s| == |found|
    ensures forall c :: c in s <==> c in found
  {
    s := [];
    for i := 0 to |found|
      invariant Sorted(s) && |s| == i
      invariant forall c :: c in s <==> c in found[..i]
    {
      s := InsertCandidate(s, found[i]);
      assert found[..i + 1] == found[..i] + [found[i]];
    }
    assert found[..|found|] == found;
  }

  method InsertCandidate(s: seq<Candidate>, c: Candidate) returns (r: seq<Candidate>)
    requires Sorted(s)
    ensures Sorted(r) && |r| == |s| + 1
    ensures forall d :: d in r <==> d in s || d == c
  {
    var i := 0;
    while i < |s| && Better(s[i], c)
      invariant i <= |s|
      invariant forall j | 0 <= j < i :: Better(s[j], c)
    {
      i := i + 1;
    }
    r := s[..i] + [c] + s[i..];
    assert s == s[..i] + s[i..];
    forall j | i <= j < |s| ensures !Better(s[j], c) {
      BetterIsTransitive(s[j], s[i], c);
      BetterIsTransitive(c, s[i], s[j]);
    }
    forall j | 0 <= j < i ensures !Better(c, s[j]) {
      BetterIsStrict(c, s[j]);
    }
  }

  /** It finds a run exactly when there is a candidate, and then a best one. */
  method FindBaselineRun(q: Input) returns (best: Option<Candidate>)
    requires Valid(q)
    ensures best.Some? <==> exists c: Candidate :: IsCandidate(q, c)
    ensures best.Some? ==> IsBest(q, best.value)
  {
    if q.fingerprints == {} {
      return None;
    }
    var candidates: seq<Candidate> := [];
    for depth := 0 to |q.ancestry|
      invariant forall c: Candidate :: c in candidates <==> IsCandidate(q, c) && c.depth < depth
    {
      var found := Gather(q, depth);
      candidates := candidates + found;
    }
    if candidates == [] {
      return None;
    }
    assert candidates[0] in candidates;
    var sorted := SortCandidates(candidates);
    assert sorted[0] in sorted;
    forall d | IsCandidate(q, d) ensures !Better(d, sorted[0]) {
      assert d in sorted;
      BetterIsStrict(d, sorted[0]);
    }
    return Some(sorted[0]);
  }
}
