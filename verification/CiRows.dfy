/**
 The rows of a CI report: SelectCIReportRows (internal/db/ci_report.sql.go) and assembleComparisons
 (internal/service/ci_report.go).
 */
module CiRows {
  import opened Options

  type Id = int
  type Key = (Id, Id)

  datatype Result = Result(
    id: Id, run: Id, commit: Option<Id>, fingerprint: Id, timestamp: int, errored: bool, boundary: bool)

  /** One selected contender run: its commit and the baseline run chosen for it. */
  datatype Selection = Selection(contenderCommit: Option<Id>, baseline: Option<Key>)

  type Selections = map<Id, Selection>

  function KeyOf(r: Result): Option<Key> {
    if r.commit.None? then None else Some((r.run, r.commit.value))
  }

  predicate KeyIn(r: Result, keys: set<Key>) {
    KeyOf(r).Some? && KeyOf(r).value in keys
  }

  function ContenderKeys(selections: Selections): set<Key> {
    set run | run in selections && selections[run].contenderCommit.Some? :: (run, selections[run].contenderCommit.value)
  }

  function BaselineKeys(selections: Selections): set<Key> {
    set run | run in selections && selections[run].baseline.Some? :: selections[run].baseline.value
  }

  // ---------------------------------------------------------------------------------------
  // The query

  /** The rows with one of these run keys, in order. */
  function RowsWith(rows: seq<Result>, keys: set<Key>): (r: seq<Result>)
    ensures forall x :: x in r <==> x in rows && KeyIn(x, keys)
  {
    if rows == [] then [] else
      var rest := RowsWith(rows[..|rows| - 1], keys);
      var x := rows[|rows| - 1];
      if KeyIn(x, keys) then rest + [x] else rest
  }

  /** CountCIReportRows. */
  function CountRows(table: seq<Result>, keys: set<Key>): nat {
    |RowsWith(table, keys)|
  }

  predicate NoLaterThan(a: Result, b: Result) {
    a.timestamp < b.timestamp || (a.timestamp == b.timestamp && a.id <= b.id)
  }

  /** The newest result of run `key` with this fingerprint: DISTINCT ON ... ORDER BY timestamp DESC, id DESC. */
  ghost predicate IsNewest(table: seq<Result>, key: Key, fingerprint: Id, r: Result) {
    && r in table && KeyOf(r) == Some(key) && r.fingerprint == fingerprint
    && forall x | x in table && KeyOf(x) == Some(key) && x.fingerprint == fingerprint :: NoLaterThan(x, r)
  }

  ghost predicate HasFingerprint(table: seq<Result>, keys: set<Key>, fingerprint: Id) {
    exists x | x in table :: KeyIn(x, keys) && x.fingerprint == fingerprint
  }

  ghost predicate IsBaselineRow(table: seq<Result>, contenders: set<Key>, baselines: set<Key>, r: Result) {
    && KeyIn(r, baselines) && HasFingerprint(table, contenders, r.fingerprint)
    && IsNewest(table, KeyOf(r).value, r.fingerprint, r)
  }

  predicate Distinct(s: seq<Result>) {
    forall i, j | 0 <= i < j < |s| :: s[i] != s[j]
  }

  /** The id is the primary key. */
  predicate IsTable(table: seq<Result>) {
    forall i, j | 0 <= i < j < |table| :: table[i].id != table[j].id
  }

  /**
   What SelectCIReportRows returns: the contender rows (side_order 0) in some order, then one baseline
   row per run key and fingerprint (side_order 1).  UNION ALL keeps a row that is on both sides twice.
   */
  ghost predicate IsSelected(
    table: seq<Result>, contenders: set<Key>, baselines: set<Key>, first: seq<Result>, second: seq<Result>)
  {
    && multiset(first) == multiset(RowsWith(table, contenders))
    && Distinct(second)
    && forall r :: r in second <==> IsBaselineRow(table, contenders, baselines, r)
  }

  predicate SameSlot(a: Result, b: Result) {
    a.run == b.run && a.commit == b.commit && a.fingerprint == b.fingerprint
  }

  /**
   The second part of the query: rows of baseline runs only, each of a contender's series, the newest of its run and
   series, and only one for each.
   */
  lemma SecondPart(
    table: seq<Result>, contenders: set<Key>, baselines: set<Key>, first: seq<Result>, second: seq<Result>,
    i: nat, j: nat)
    requires IsTable(table) && IsSelected(table, contenders, baselines, first, second) && i < |second| && j < |second|
    ensures second[i] in table && second[i].commit.Some? && (second[i].run, second[i].commit.value) in baselines
    ensures exists x | x in table :: KeyIn(x, contenders) && x.fingerprint == second[i].fingerprint
    ensures forall x | x in table && x.run == second[i].run && x.commit == second[i].commit
                       && x.fingerprint == second[i].fingerprint ::
              x.timestamp < second[i].timestamp || (x.timestamp == second[i].timestamp && x.id <= second[i].id)
    ensures SameSlot(second[i], second[j]) ==> i == j
  {
    var a, b := second[i], second[j];
    assert a in second && b in second;
    assert IsBaselineRow(table, contenders, baselines, a) && IsBaselineRow(table, contenders, baselines, b);
    if SameSlot(a, b) {
      NewestIsUnique(table, (a.run, a.commit.value), a.fingerprint, a, b);
    }
  }

  // ---------------------------------------------------------------------------------------
  // Comparisons

  datatype Status = Errored | MissingBaseline | NotComparable | Insufficient | Regressed | Improved | Stable

  /** Reader.Compare on two result ids. */
  datatype Verdict = Lookback(regression: bool, improvement: bool) | NoLookback | Incomparable | Failure

  type Compare = (Id, Id) -> Verdict

  datatype Comparison = Comparison(
    result: Id, run: Id, fingerprint: Id, boundary: bool, status: Status, baseline: Option<Id>)

  /** ciReportComparisonStatus. */
  function StatusOf(v: Verdict): Status
    requires v.Lookback? || v.NoLookback?
  {
    if v.NoLookback? then Insufficient
    else if v.regression then Regressed
    else if v.improvement then Improved
    else Stable
  }

  /** The comparison made of a contender row and the baseline row found for it; None when Compare fails. */
  function Judge(row: Result, baseline: Option<Result>, compare: Compare): Option<Comparison> {
    var base := Comparison(row.id, row.run, row.fingerprint, row.boundary, MissingBaseline, None);
    if row.errored then Some(base.(status := Errored))
    else if baseline.None? then Some(base)
    else
      var b := baseline.value.id;
      match compare(b, row.id)
      case Failure => None
      case Incomparable => Some(base.(status := NotComparable, baseline := Some(b)))
      case v => Some(base.(status := StatusOf(v), baseline := Some(b)))
  }

  /** The baseline result of a contender row, read off the table. */
  ghost predicate IsBaselineFor(table: seq<Result>, selections: Selections, row: Result, baseline: Option<Result>) {
    if row.run in selections && selections[row.run].baseline.Some? then
      var key := selections[row.run].baseline.value;
      if baseline.Some? then IsNewest(table, key, row.fingerprint, baseline.value)
      else forall x | x in table :: !(KeyOf(x) == Some(key) && x.fingerprint == row.fingerprint)
    else baseline.None?
  }

  /** The last row with this key and fingerprint: later rows overwrite earlier ones in the map. */
  function LastRow(rows: seq<Result>, key: Key, fingerprint: Id): (r: Option<Result>)
    ensures r.Some? ==> r.value in rows && KeyOf(r.value) == Some(key) && r.value.fingerprint == fingerprint
    ensures r.None? ==> forall x | x in rows :: !(KeyOf(x) == Some(key) && x.fingerprint == fingerprint)
  {
    if rows == [] then None else
      var x := rows[|rows| - 1];
      if KeyOf(x) == Some(key) && x.fingerprint == fingerprint then Some(x)
      else LastRow(rows[..|rows| - 1], key, fingerprint)
  }

  lemma {:induction false} LastRowOfTwo(first: seq<Result>, second: seq<Result>, key: Key, fingerprint: Id)
    ensures LastRow(first + second, key, fingerprint)
            == if LastRow(second, key, fingerprint).Some? then LastRow(second, key, fingerprint)
               else LastRow(first, key, fingerprint)
    decreases |second|
  {
    if second == [] {
      assert first + second == first;
    } else {
      var n := |second| - 1;
      assert (first + second)[..|first + second| - 1] == first + second[..n];
      LastRowOfTwo(first, second[..n], key, fingerprint);
    }
  }

  lemma NewestIsUnique(table: seq<Result>, key: Key, fingerprint: Id, a: Result, b: Result)
    requires IsTable(table) && IsNewest(table, key, fingerprint, a) && IsNewest(table, key, fingerprint, b)
    ensures a == b
  {
    var i :| 0 <= i < |table| && table[i] == a;
    var j :| 0 <= j < |table| && table[j] == b;
  }

  lemma {:induction false} NewestExists(table: seq<Result>, key: Key, fingerprint: Id, x: Result)
    requires x in table && KeyOf(x) == Some(key) && x.fingerprint == fingerprint
    ensures exists r :: IsNewest(table, key, fingerprint, r)
    decreases |table|
  {
    var n := |table| - 1;
    var y := table[n];
    var rest := table[..n];
    assert forall z | z in table :: z == y || z in rest;
    var matching := LastRow(rest, key, fingerprint);
    if matching.None? {
      assert x == y && IsNewest(table, key, fingerprint, y);
    } else {
      NewestExists(rest, key, fingerprint, matching.value);
      var r :| IsNewest(rest, key, fingerprint, r);
      if KeyOf(y) == Some(key) && y.fingerprint == fingerprint && NoLaterThan(r, y) {
        assert IsNewest(table, key, fingerprint, y);
      } else {
        assert IsNewest(table, key, fingerprint, r);
      }
    }
  }

  /**
   What the in-memory map finds for a contender row is the newest baseline result in the table, even
   when the baseline run is itself a contender and its rows come twice.
   */
  lemma LookupIsNewest(
    table: seq<Result>, selections: Selections, first: seq<Result>, second: seq<Result>, row: Result, key: Key)
    requires IsTable(table) && key in BaselineKeys(selections)
    requires IsSelected(table, ContenderKeys(selections), BaselineKeys(selections), first, second)
    requires row in table && KeyIn(row, ContenderKeys(selections))
    ensures var found := LastRow(first + second, key, row.fingerprint);
            if found.Some? then IsNewest(table, key, row.fingerprint, found.value)
            else forall x | x in table :: !(KeyOf(x) == Some(key) && x.fingerprint == row.fingerprint)
  {
    var f := row.fingerprint;
    LastRowOfTwo(first, second, key, f);
    var hit := LastRow(table, key, f);
    if hit.Some? {
      NewestExists(table, key, f, hit.value);
      var r :| IsNewest(table, key, f, r);
      assert HasFingerprint(table, ContenderKeys(selections), f);
      assert IsBaselineRow(table, ContenderKeys(selections), BaselineKeys(selections), r);
      assert r in second;
    } else {
      var found := LastRow(first + second, key, f);
      if found.Some? {
        SelectedAreStored(table, ContenderKeys(selections), BaselineKeys(selections), first, second, found.value);
      }
    }
  }

  lemma SelectedAreStored(
    table: seq<Result>, contenders: set<Key>, baselines: set<Key>, first: seq<Result>, second: seq<Result>, r: Result)
    requires IsSelected(table, contenders, baselines, first, second) && (r in first || r in second)
    ensures r in table
  {
    if r in first {
      assert r in multiset(first);
      assert r in RowsWith(table, contenders);
    }
  }

  // ---------------------------------------------------------------------------------------
  // assembleComparisons

  /** The baseline row the map yields for a contender row. */
  function Found(rows: seq<Result>, selections: Selections, row: Result): Option<Result> {
    if row.run in selections && selections[row.run].baseline.Some?
    then LastRow(rows, selections[row.run].baseline.value, row.fingerprint)
    else None
  }

  /** The comparisons of these contender rows, in order; None as soon as one Compare fails. */
  function Assembled(
    contenders: seq<Result>, rows: seq<Result>, selections: Selections, compare: Compare): (r: Option<seq<Comparison>>)
    ensures r.Some? ==> |r.value| == |contenders|
  {
    if contenders == [] then Some([]) else
      var n := |contenders| - 1;
      var before := Assembled(contenders[..n], rows, selections, compare);
      var last := Judge(contenders[n], Found(rows, selections, contenders[n]), compare);
      if before.None? || last.None? then None else Some(before.value + [last.value])
  }

  lemma {:induction false} AssembledAt(
    contenders: seq<Result>, rows: seq<Result>, selections: Selections, compare: Compare, i: nat)
    requires Assembled(contenders, rows, selections, compare).Some? && i < |contenders|
    ensures Judge(contenders[i], Found(rows, selections, contenders[i]), compare)
            == Some(Assembled(contenders, rows, selections, compare).value[i])
    decreases |contenders|
  {
    if i < |contenders| - 1 {
      AssembledAt(contenders[..|contenders| - 1], rows, selections, compare, i);
    }
  }

  lemma {:induction false} AssembledFailsIff(
    contenders: seq<Result>, rows: seq<Result>, selections: Selections, compare: Compare)
    ensures Assembled(contenders, rows, selections, compare).None?
            <==> exists r | r in contenders :: Judge(r, Found(rows, selections, r), compare).None?
    decreases |contenders|
  {
    if contenders != [] {
      var n := |contenders| - 1;
      AssembledFailsIff(contenders[..n], rows, selections, compare);
      assert contenders == contenders[..n] + [contenders[n]];
      assert forall r | r in contenders :: r == contenders[n] || r in contenders[..n];
    }
  }

  ghost predicate RowMap(rows: seq<Result>, keys: set<Key>, found: map<Key, map<Id, Result>>) {
    forall key: Key, f: Id | key in keys ::
      LastRow(rows, key, f) == Entry(found, key, f)
  }

  function Entry(found: map<Key, map<Id, Result>>, key: Key, f: Id): Option<Result> {
    if key in found && f in found[key] then Some(found[key][f]) else None
  }

  method IndexBaselines(rows: seq<Result>, keys: set<Key>) returns (found: map<Key, map<Id, Result>>)
    ensures RowMap(rows, keys, found)
  {
    found := map[];
    for i := 0 to |rows|
      invariant RowMap(rows[..i], keys, found)
    {
      var row := rows[i];
      ghost var before := found;
      if KeyIn(row, keys) {
        var key := KeyOf(row).value;
        if key !in found {
          found := found[key := map[]];
        }
        found := found[key := found[key][row.fingerprint := row]];
      }
      RowMapNext(rows, i, keys, before, found);
    }
    assert rows[..|rows|] == rows;
  }

  lemma RowMapNext(
    rows: seq<Result>, i: nat, keys: set<Key>, before: map<Key, map<Id, Result>>, found: map<Key, map<Id, Result>>)
    requires i < |rows| && RowMap(rows[..i], keys, before)
    requires var row := rows[i];
             if KeyIn(row, keys) then
               var key := KeyOf(row).value;
               found == before[key := (if key in before then before[key] else map[])[row.fingerprint := row]]
             else found == before
    ensures RowMap(rows[..i + 1], keys, found)
  {
    assert rows[..i + 1][..i] == rows[..i];
    forall key: Key, f: Id | key in keys
      ensures LastRow(rows[..i + 1], key, f) == Entry(found, key, f)
    {
      assert LastRow(rows[..i], key, f) == Entry(before, key, f);
      if KeyOf(rows[i]) == Some(key) {
        assert KeyIn(rows[i], keys);
      }
    }
  }

  method AssembleComparisons(
    rows: seq<Result>, selections: Selections, compare: Compare) returns (r: Option<seq<Comparison>>)
    ensures r == Assembled(RowsWith(rows, ContenderKeys(selections)), rows, selections, compare)
  {
    var contenders, baselines := ContenderKeys(selections), BaselineKeys(selections);
    var found := IndexBaselines(rows, baselines);
    var comparisons: seq<Comparison> := [];
    for i := 0 to |rows|
      invariant Assembled(RowsWith(rows[..i], contenders), rows, selections, compare) == Some(comparisons)
    {
      var row := rows[i];
      assert rows[..i + 1][..i] == rows[..i];
      if KeyIn(row, contenders) {
        var baseline := None;
        if selections[row.run].baseline.Some? {
          assert selections[row.run].baseline.value in baselines;
          baseline := Entry(found, selections[row.run].baseline.value, row.fingerprint);
        }
        ghost var before := RowsWith(rows[..i], contenders);
        assert (before + [row])[..|before|] == before;
        var comparison := Judge(row, baseline, compare);
        if comparison.None? {
          FailureSpreads(rows, i, contenders, selections, compare);
          return None;
        }
        comparisons := comparisons + [comparison.value];
      }
    }
    assert rows[..|rows|] == rows;
    r := Some(comparisons);
  }

  lemma FailureSpreads(rows: seq<Result>, i: nat, contenders: set<Key>, selections: Selections, compare: Compare)
    requires i < |rows| && KeyIn(rows[i], contenders)
    requires Judge(rows[i], Found(rows, selections, rows[i]), compare).None?
    ensures Assembled(RowsWith(rows, contenders), rows, selections, compare).None?
  {
    assert rows[i] in RowsWith(rows, contenders);
    AssembledFailsIff(RowsWith(rows, contenders), rows, selections, compare);
  }

  // ---------------------------------------------------------------------------------------
  // Comparisons in terms of the table

  lemma {:induction false} RowsWithJoin(a: seq<Result>, b: seq<Result>, keys: set<Key>)
    ensures RowsWith(a + b, keys) == RowsWith(a, keys) + RowsWith(b, keys)
    decreases |b|
  {
    if b == [] {
      assert a + b == a;
    } else {
      var n := |b| - 1;
      assert (a + b)[..|a + b| - 1] == a + b[..n];
      RowsWithJoin(a, b[..n], keys);
    }
  }

  lemma {:induction false} RowsWithAll(a: seq<Result>, keys: set<Key>)
    requires forall r | r in a :: KeyIn(r, keys)
    ensures RowsWith(a, keys) == a
    decreases |a|
  {
    if a != [] {
      RowsWithAll(a[..|a| - 1], keys);
    }
  }

  lemma BaselineIsUnique(table: seq<Result>, selections: Selections, row: Result, a: Option<Result>, b: Option<Result>)
    requires IsTable(table) && IsBaselineFor(table, selections, row, a) && IsBaselineFor(table, selections, row, b)
    ensures a == b
  {
    if a.Some? && b.Some? {
      NewestIsUnique(table, selections[row.run].baseline.value, row.fingerprint, a.value, b.value);
    }
  }

  /** Each comparison's status follows from its own row and the newest stored baseline result of its run. */
  lemma ComparisonFromTable(
    table: seq<Result>, selections: Selections, first: seq<Result>, second: seq<Result>, compare: Compare, i: nat)
    requires IsTable(table)
    requires IsSelected(table, ContenderKeys(selections), BaselineKeys(selections), first, second)
    requires Assembled(RowsWith(first + second, ContenderKeys(selections)), first + second, selections, compare).Some?
    requires i < |RowsWith(first + second, ContenderKeys(selections))|
    ensures var rows := RowsWith(first + second, ContenderKeys(selections));
            var made := Assembled(rows, first + second, selections, compare).value[i];
            && rows[i] in table
            && (exists baseline :: IsBaselineFor(table, selections, rows[i], baseline))
            && (forall baseline | IsBaselineFor(table, selections, rows[i], baseline) ::
                  Judge(rows[i], baseline, compare) == Some(made))
  {
    var contenders := ContenderKeys(selections);
    var rows := RowsWith(first + second, contenders);
    var row := rows[i];
    assert row in rows;
    SelectedAreStored(table, contenders, BaselineKeys(selections), first, second, row);
    AssembledAt(rows, first + second, selections, compare, i);
    if row.run in selections && selections[row.run].baseline.Some? {
      LookupIsNewest(table, selections, first, second, row, selections[row.run].baseline.value);
    }
    var found := Found(first + second, selections, row);
    assert IsBaselineFor(table, selections, row, found);
    forall baseline | IsBaselineFor(table, selections, row, baseline) ensures baseline == found {
      BaselineIsUnique(table, selections, row, baseline, found);
    }
  }

  /** A baseline result is stored for this contender row, and b is the newest. */
  ghost predicate HasBaseline(table: seq<Result>, selections: Selections, row: Result, b: Result) {
    && row.run in selections && selections[row.run].baseline.Some?
    && b in table && b.commit.Some? && (b.run, b.commit.value) == selections[row.run].baseline.value
    && b.fingerprint == row.fingerprint
    && forall x | x in table && x.run == b.run && x.commit == b.commit && x.fingerprint == b.fingerprint ::
         x.timestamp < b.timestamp || (x.timestamp == b.timestamp && x.id <= b.id)
  }

  /** What a comparison says of its row, given the stored results and Compare's verdicts. */
  ghost predicate Answers(
    table: seq<Result>, selections: Selections, compare: Compare, row: Result, made: Comparison)
  {
    && made.result == row.id && made.run == row.run && made.fingerprint == row.fingerprint
    && made.boundary == row.boundary
    && (made.status == Errored <==> row.errored)
    && (made.status == MissingBaseline <==>
        !row.errored && forall b | b in table :: !HasBaseline(table, selections, row, b))
    && (forall b | !row.errored && HasBaseline(table, selections, row, b) ::
          && made.baseline == Some(b.id)
          && match compare(b.id, row.id)
             case Incomparable => made.status == NotComparable
             case NoLookback => made.status == Insufficient
             case Lookback(regression, improvement) =>
               made.status == if regression then Regressed else if improvement then Improved else Stable
             case Failure => false)
  }

  lemma BaselineIff(table: seq<Result>, selections: Selections, row: Result, b: Result)
    ensures IsBaselineFor(table, selections, row, Some(b)) <==> HasBaseline(table, selections, row, b)
  {
  }

  /** Without a baseline result there is none that is newest. */
  lemma NoBaselineIff(table: seq<Result>, selections: Selections, row: Result)
    ensures IsBaselineFor(table, selections, row, None)
            <==> forall b | b in table :: !HasBaseline(table, selections, row, b)
  {
    if row.run in selections && selections[row.run].baseline.Some? {
      var key := selections[row.run].baseline.value;
      if x :| x in table && KeyOf(x) == Some(key) && x.fingerprint == row.fingerprint {
        NewestExists(table, key, row.fingerprint, x);
        var b :| IsNewest(table, key, row.fingerprint, b);
        assert HasBaseline(table, selections, row, b);
      }
    }
  }

  lemma JudgeAnswers(
    table: seq<Result>, selections: Selections, compare: Compare, row: Result, baseline: Option<Result>,
    made: Comparison)
    requires IsTable(table) && IsBaselineFor(table, selections, row, baseline)
    requires Judge(row, baseline, compare) == Some(made)
    ensures Answers(table, selections, compare, row, made)
  {
    NoBaselineIff(table, selections, row);
    forall b | HasBaseline(table, selections, row, b) ensures baseline == Some(b) {
      BaselineIff(table, selections, row, b);
      BaselineIsUnique(table, selections, row, baseline, Some(b));
    }
    if baseline.Some? {
      BaselineIff(table, selections, row, baseline.value);
    }
  }

  /** Every comparison assembled from the query's rows answers for its row. */
  lemma ComparisonAnswers(
    table: seq<Result>, selections: Selections, first: seq<Result>, second: seq<Result>, compare: Compare, i: nat)
    requires IsTable(table)
    requires IsSelected(table, ContenderKeys(selections), BaselineKeys(selections), first, second)
    requires Assembled(RowsWith(first + second, ContenderKeys(selections)), first + second, selections, compare).Some?
    requires i < |RowsWith(first + second, ContenderKeys(selections))|
    ensures var rows := RowsWith(first + second, ContenderKeys(selections));
            var made := Assembled(rows, first + second, selections, compare).value;
            |made| == |rows| && rows[i] in table && Answers(table, selections, compare, rows[i], made[i])
  {
    var rows := RowsWith(first + second, ContenderKeys(selections));
    ComparisonFromTable(table, selections, first, second, compare, i);
    var baseline :| IsBaselineFor(table, selections, rows[i], baseline);
    JudgeAnswers(
      table, selections, compare, rows[i], baseline, Assembled(rows, first + second, selections, compare).value[i]);
  }

  /**
   The number of comparisons: the contender results, and once more each baseline row of a run that is also a
   contender.
   */
  lemma ComparisonCount(
    table: seq<Result>, contenders: set<Key>, baselines: set<Key>, first: seq<Result>, second: seq<Result>)
    requires IsSelected(table, contenders, baselines, first, second)
    ensures |RowsWith(first + second, contenders)| == CountRows(table, contenders) + |RowsWith(second, contenders)|
  {
    RowsWithJoin(first, second, contenders);
    forall r | r in first ensures KeyIn(r, contenders) {
      assert r in multiset(first);
      assert r in RowsWith(table, contenders);
    }
    RowsWithAll(first, contenders);
    assert |first| == |multiset(first)| == |multiset(RowsWith(table, contenders))|;
  }

  /** Some stored result belongs to a run that is selected on both sides. */
  ghost predicate Overlap(table: seq<Result>, contenders: set<Key>, baselines: set<Key>) {
    exists r | r in table :: KeyIn(r, contenders) && KeyIn(r, baselines)
  }

  /** The comparisons number the contender results exactly when no run with results is on both sides. */
  lemma CountsAgreeIff(
    table: seq<Result>, contenders: set<Key>, baselines: set<Key>, first: seq<Result>, second: seq<Result>)
    requires IsTable(table) && IsSelected(table, contenders, baselines, first, second)
    ensures |RowsWith(first + second, contenders)| == CountRows(table, contenders)
        <==> !Overlap(table, contenders, baselines)
  {
    ComparisonCount(table, contenders, baselines, first, second);
    var twice := RowsWith(second, contenders);
    if twice != [] {
      assert twice[0] in twice;
      assert twice[0] in second && IsBaselineRow(table, contenders, baselines, twice[0]);
    }
    if Overlap(table, contenders, baselines) {
      var r :| r in table && KeyIn(r, contenders) && KeyIn(r, baselines);
      var key := KeyOf(r).value;
      NewestExists(table, key, r.fingerprint, r);
      var x :| IsNewest(table, key, r.fingerprint, x);
      assert HasFingerprint(table, contenders, x.fingerprint);
      assert IsBaselineRow(table, contenders, baselines, x);
      assert x in twice;
    }
  }
}
