/**
 Repairing unknown commits by cursor (internal/commitrepair/repair.go and the two statements it uses
 in internal/db/commit.sql.go).  Repositories and hashes are numbers in their string order, 0 being the
 empty string.  Other workers may repair rows at any time.
 */
module CommitRepair {
  import opened Options

  type Id = int
  type Text = nat
  type Key = (Text, Text)

  datatype Row = Row(repository: Text, sha: Text, timestamp: Option<int>, forkPoint: Option<int>, details: int)
  datatype Info = Info(timestamp: int, forkPoint: int, details: int)

  type Table = map<Id, Row>

  const MAX_SAMPLES := 10
  const MAX_INT32 := 0x7fff_ffff

  predicate Less(a: Key, b: Key) {
    a.0 < b.0 || (a.0 == b.0 && a.1 < b.1)
  }

  predicate Unknown(r: Row) {
    r.timestamp.None? && r.forkPoint.None?
  }

  function KeyOf(r: Row): Key {
    (r.repository, r.sha)
  }

  /** commit_index is unique on (sha, repository). */
  predicate UniqueKeys(t: Table) {
    forall a, b | a in t && b in t && KeyOf(t[a]) == KeyOf(t[b]) :: a == b
  }

  /** The WHERE clause of SelectUnknownCommitRepairCandidates. */
  predicate IsCandidate(t: Table, repository: Option<Text>, after: Option<Key>, id: Id) {
    && id in t && Unknown(t[id]) && t[id].sha != 0 && t[id].repository != 0
    && (repository.Some? ==> t[id].repository == repository.value)
    && (after.Some? ==> Less(after.value, KeyOf(t[id])))
  }

  /**
   Candidates have neither timestamp nor fork point, a repository and a hash, and lie in the scope and past the
   cursor.
   */
  lemma CandidateMeaning(t: Table, repository: Option<Text>, after: Option<Key>, id: Id)
    ensures IsCandidate(t, repository, after, id)
            <==> id in t && t[id].timestamp == None && t[id].forkPoint == None && t[id].sha > 0 && t[id].repository > 0
                 && (repository == None || repository == Some(t[id].repository))
                 && (after == None || after.value.0 < t[id].repository
                     || (after.value.0 == t[id].repository && after.value.1 < t[id].sha))
  {
  }

  /** The next one in ORDER BY repository, sha. */
  predicate IsNext(t: Table, repository: Option<Text>, after: Option<Key>, id: Id) {
    && IsCandidate(t, repository, after, id)
    && forall d | d in t && IsCandidate(t, repository, after, d) :: d == id || Less(KeyOf(t[id]), KeyOf(t[d]))
  }

  ghost function Candidates(t: Table, repository: Option<Text>, after: Option<Key>): set<Id> {
    set id | id in t && IsCandidate(t, repository, after, id)
  }

  /** The least of a set of rows. */
  predicate IsLeast(t: Table, left: set<Id>, id: Id)
    requires left <= t.Keys
  {
    id in left && forall d | d in left :: d == id || Less(KeyOf(t[id]), KeyOf(t[d]))
  }

  lemma {:induction false} LeastExists(t: Table, left: set<Id>) returns (id: Id)
    requires UniqueKeys(t) && left <= t.Keys && left != {}
    ensures IsLeast(t, left, id)
    decreases |left|
  {
    id := SomeElement(left);
    var rest := left - {id};
    assert forall d :: d in left <==> d == id || d in rest;
    if rest != {} {
      var m := LeastExists(t, rest);
      if Less(KeyOf(t[m]), KeyOf(t[id])) {
        id := m;
      }
    }
  }

  lemma NoneIsNext(t: Table, repository: Option<Text>, after: Option<Key>)
    requires UniqueKeys(t) && forall id | id in t :: !IsNext(t, repository, after, id)
    ensures forall id :: !IsCandidate(t, repository, after, id)
  {
    var all := Candidates(t, repository, after);
    if all != {} {
      var id := LeastExists(t, all);
      assert IsNext(t, repository, after, id);
      assert false;
    }
    forall id ensures !IsCandidate(t, repository, after, id) {
      assert id !in all;
    }
  }

  /** Rows only ever go from unknown to known; a known row and every key stay. */
  ghost predicate Evolves(a: Table, b: Table) {
    && a.Keys == b.Keys
    && forall id | id in a :: KeyOf(a[id]) == KeyOf(b[id]) && (!Unknown(a[id]) ==> a[id] == b[id])
  }

  lemma EvolvesAt(a: Table, b: Table, id: Id)
    requires Evolves(a, b) && id in a
    ensures id in b && KeyOf(a[id]) == KeyOf(b[id]) && (!Unknown(a[id]) ==> b[id] == a[id])
  {
  }

  lemma EvolvesTwice(a: Table, b: Table, c: Table)
    requires Evolves(a, b) && Evolves(b, c)
    ensures Evolves(a, c)
  {
  }

  lemma EvolvesKeepsUnique(a: Table, b: Table)
    requires Evolves(a, b) && UniqueKeys(a)
    ensures UniqueKeys(b)
  {
  }

  /** Went from unknown to known. */
  predicate Repaired(a: Table, b: Table, id: Id) {
    id in a && id in b && Unknown(a[id]) && !Unknown(b[id])
  }

  function Filled(r: Row, info: Info): Row {
    r.(timestamp := Some(info.timestamp), forkPoint := Some(info.forkPoint), details := info.details)
  }

  /** Ascending is by repository, then by hash. */
  lemma AscendingMeaning(keys: seq<Key>, i: nat, j: nat)
    requires Ascending(keys) && i < j < |keys|
    ensures keys[i].0 < keys[j].0 || (keys[i].0 == keys[j].0 && keys[i].1 < keys[j].1)
  {
  }

  predicate Ascending(keys: seq<Key>) {
    forall i, j | 0 <= i < j < |keys| :: Less(keys[i], keys[j])
  }

  ghost function KeysOf(t: Table, ids: seq<Id>): (r: seq<Key>)
    requires forall i | 0 <= i < |ids| :: ids[i] in t
    ensures |r| == |ids| && forall i | 0 <= i < |ids| :: r[i] == KeyOf(t[ids[i]])
  {
    seq(|ids|, i requires 0 <= i < |ids| => KeyOf(t[ids[i]]))
  }

  // ---------------------------------------------------------------------------------------
  // The store

  class CommitStore {
    var rows: Table

    constructor (rows: Table)
      ensures this.rows == rows
    {
      this.rows := rows;
    }

    /** SelectUnknownCommitRepairCandidates: the first `limit` candidates after the cursor, in order. */
    method Select(repository: Option<Text>, after: Option<Key>, limit: nat) returns (ids: seq<Id>)
      requires UniqueKeys(rows)
      ensures |ids| <= limit && IsPage(rows, repository, after, ids)
      ensures |ids| < limit ==> forall id | IsCandidate(rows, repository, after, id) :: id in ids
    {
      ids := [];
      while |ids| < limit
        invariant |ids| <= limit && IsPage(rows, repository, after, ids)
        decreases limit - |ids|
      {
        if id :| id in rows && IsNext(rows, repository, CursorAfter(rows, after, ids), id) {
          PageGrows(rows, repository, after, ids, id);
          ids := ids + [id];
        } else {
          NoneIsNext(rows, repository, CursorAfter(rows, after, ids));
          return;
        }
      }
    }

    /** UpdateUnknownCommit: fills the row only while it is still unknown, and says how many rows it changed. */
    method UpdateUnknown(id: Id, info: Info) returns (changed: nat)
      modifies this
      ensures Evolves(old(rows), rows)
      ensures changed == if old(id in rows && Unknown(rows[id])) then 1 else 0
      ensures rows == if changed == 1 then old(rows)[id := Filled(old(rows)[id], info)] else old(rows)
      ensures changed == 1 ==>
                && rows[id].timestamp == Some(info.timestamp) && rows[id].forkPoint == Some(info.forkPoint)
                && rows[id].details == info.details
                && rows[id].repository == old(rows)[id].repository && rows[id].sha == old(rows)[id].sha
    {
      if id in rows && Unknown(rows[id]) {
        rows := rows[id := Filled(rows[id], info)];
        return 1;
      }
      return 0;
    }

    /** What other workers do meanwhile: the same guarded update on any rows. */
    method Others(repairs: map<Id, Info>)
      modifies this
      ensures Evolves(old(rows), rows)
      ensures forall id | Repaired(old(rows), rows, id) :: id in repairs
      ensures forall id | id in repairs && id in rows :: !Unknown(rows[id])
    {
      rows := map id | id in rows ::
        if Unknown(rows[id]) && id in repairs then Filled(rows[id], repairs[id]) else rows[id];
    }
  }

  /** The key of the last row of a page, or where the page started. */
  function CursorAfter(t: Table, after: Option<Key>, ids: seq<Id>): Option<Key>
    requires forall i | 0 <= i < |ids| :: ids[i] in t
  {
    if ids == [] then after else Some(KeyOf(t[ids[|ids| - 1]]))
  }

  /** The first |ids| candidates after the cursor: in order, and nothing skipped up to the last of them. */
  ghost predicate IsPage(t: Table, repository: Option<Text>, after: Option<Key>, ids: seq<Id>) {
    && (forall i | 0 <= i < |ids| :: ids[i] in t && IsCandidate(t, repository, after, ids[i]))
    && Ascending(KeysOf(t, ids))
    && forall id | IsCandidate(t, repository, after, id) && id !in ids ::
         IsCandidate(t, repository, CursorAfter(t, after, ids), id)
  }

  lemma PageGrows(t: Table, repository: Option<Text>, after: Option<Key>, ids: seq<Id>, id: Id)
    requires UniqueKeys(t) && IsPage(t, repository, after, ids) && IsNext(t, repository, CursorAfter(t, after, ids), id)
    ensures IsPage(t, repository, after, ids + [id])
  {
    var all, cursor := ids + [id], CursorAfter(t, after, ids);
    assert KeysOf(t, all) == KeysOf(t, ids) + [KeyOf(t[id])];
    forall i | 0 <= i < |ids| ensures Less(KeysOf(t, ids)[i], KeyOf(t[id])) {
      assert i == |ids| - 1 || Less(KeysOf(t, ids)[i], KeysOf(t, ids)[|ids| - 1]);
    }
    forall d | IsCandidate(t, repository, after, d) && d !in all
      ensures IsCandidate(t, repository, CursorAfter(t, after, all), d)
    {
      assert d !in ids && d != id;
      assert IsCandidate(t, repository, cursor, d);
    }
  }

  // ---------------------------------------------------------------------------------------
  // One run

  datatype Request = Request(repository: Option<Text>, limit: int, cursor: Option<Key>, dryRun: bool, backfill: bool)
  datatype Error = LimitNotPositive | LimitTooLarge | IncompleteCursor | CursorMismatch
  datatype Outcome = Unsupported | Failure(authOrQuota: bool) | Incomplete | Complete(info: Info, job: bool)

  datatype Summary = Summary(
    scanned: nat, repaired: nat, wouldRepair: nat, unsupported: nat, failed: nat, authOrQuota: nat,
    alreadyRepaired: nat, backfillEnqueued: nat, wouldBackfill: nat, nextCursor: Option<Key>, failures: seq<Key>)

  type Enricher = Key -> Outcome
  /** The rows other workers repair just before the i-th candidate is updated. */
  type Interference = nat -> map<Id, Info>

  function ErrorOf(o: Request): Option<Error> {
    if o.limit <= 0 then Some(LimitNotPositive)
    else if o.limit >= MAX_INT32 then Some(LimitTooLarge)
    else if o.cursor.Some? && (o.cursor.value.0 == 0 || o.cursor.value.1 == 0) then Some(IncompleteCursor)
    else if o.cursor.Some? && o.repository.Some? && o.repository.value != o.cursor.value.0 then Some(CursorMismatch)
    else None
  }

  /** Which requests are refused, and why. */
  lemma ErrorMeaning(o: Request)
    ensures ErrorOf(o) == Some(LimitNotPositive) <==> o.limit <= 0
    ensures ErrorOf(o) == Some(LimitTooLarge) <==> o.limit >= 2147483647
    ensures ErrorOf(o) == Some(IncompleteCursor) <==>
              0 < o.limit < 2147483647 && o.cursor.Some? && (o.cursor.value.0 == 0 || o.cursor.value.1 == 0)
    ensures ErrorOf(o) == Some(CursorMismatch) <==>
              && 0 < o.limit < 2147483647 && o.cursor.Some? && o.cursor.value.0 > 0 && o.cursor.value.1 > 0
              && o.repository.Some? && o.repository.value != o.cursor.value.0
  {
  }

  predicate Fails(outcome: Outcome) {
    outcome.Failure? || outcome.Incomplete?
  }

  /** The keys whose enrichment fails, in order. */
  function FailedKeys(keys: seq<Key>, enrich: Enricher): seq<Key> {
    if keys == [] then [] else
      var n := |keys| - 1;
      FailedKeys(keys[..n], enrich) + if Fails(enrich(keys[n])) then [keys[n]] else []
  }

  function Samples(keys: seq<Key>): (r: seq<Key>)
    ensures r <= keys && |r| == if |keys| < 10 then |keys| else 10
  {
    if |keys| <= MAX_SAMPLES then keys else keys[..MAX_SAMPLES]
  }

  /** How many of these keys belong to an unsupported repository. */
  function CountUnsupported(keys: seq<Key>, enrich: Enricher): nat {
    if keys == [] then 0
    else CountUnsupported(keys[..|keys| - 1], enrich) + if enrich(keys[|keys| - 1]).Unsupported? then 1 else 0
  }

  /** How many failures are GitHub's refusal of the credentials or the quota. */
  function CountRefusals(keys: seq<Key>, enrich: Enricher): nat {
    if keys == [] then 0
    else CountRefusals(keys[..|keys| - 1], enrich)
         + if enrich(keys[|keys| - 1]) == Failure(true) then 1 else 0
  }

  /** The failed keys are those whose enrichment gave an error or incomplete metadata. */
  lemma {:induction false} FailedKeysMeaning(keys: seq<Key>, enrich: Enricher, key: Key)
    ensures key in FailedKeys(keys, enrich)
            <==> key in keys && (enrich(key).Failure? || enrich(key) == Incomplete)
    decreases |keys|
  {
    if keys != [] {
      FailedKeysMeaning(keys[..|keys| - 1], enrich, key);
      assert keys == keys[..|keys| - 1] + [keys[|keys| - 1]];
    }
  }

  /** Every scanned row is in exactly one counter, and the first ten failures are kept. */
  ghost predicate Accounts(s: Summary, keys: seq<Key>, enrich: Enricher, dryRun: bool) {
    && s.scanned == |keys| == s.repaired + s.wouldRepair + s.unsupported + s.failed + s.alreadyRepaired
    && s.failed == |FailedKeys(keys, enrich)| && s.failures == Samples(FailedKeys(keys, enrich))
    && s.unsupported == CountUnsupported(keys, enrich) && s.authOrQuota == CountRefusals(keys, enrich)
    && s.backfillEnqueued + s.wouldBackfill <= s.repaired + s.wouldRepair
    && (if dryRun then s.repaired == s.alreadyRepaired == s.backfillEnqueued == 0 else s.wouldRepair == 0)
  }

  lemma FailureAccounts(s: Summary, keys: seq<Key>, key: Key, enrich: Enricher, dryRun: bool)
    requires Accounts(s, keys, enrich, dryRun) && Fails(enrich(key))
    ensures var r := RecordFailure(s.(scanned := s.scanned + 1), key, enrich(key) == Failure(true));
            Accounts(r, keys + [key], enrich, dryRun)
  {
    CountNext(keys, key, enrich);
    FailedKeysNext(keys, key, enrich);
    SamplesNext(FailedKeys(keys, enrich), key);
  }

  lemma OtherAccounts(s: Summary, r: Summary, keys: seq<Key>, key: Key, enrich: Enricher, dryRun: bool)
    requires Accounts(s, keys, enrich, dryRun) && !Fails(enrich(key))
    requires r.scanned == s.scanned + 1 && r.failed == s.failed && r.failures == s.failures
    requires r.authOrQuota == s.authOrQuota
    requires r.unsupported == s.unsupported + if enrich(key).Unsupported? then 1 else 0
    requires r.repaired + r.wouldRepair + r.alreadyRepaired
             == s.repaired + s.wouldRepair + s.alreadyRepaired + if enrich(key).Complete? then 1 else 0
    requires r.backfillEnqueued + r.wouldBackfill - s.backfillEnqueued - s.wouldBackfill
             <= r.repaired + r.wouldRepair - s.repaired - s.wouldRepair
    requires if dryRun then r.repaired == r.alreadyRepaired == r.backfillEnqueued == 0 else r.wouldRepair == 0
    ensures Accounts(r, keys + [key], enrich, dryRun)
  {
    CountNext(keys, key, enrich);
    FailedKeysNext(keys, key, enrich);
  }

  /** Accounted for up to the n-th key of a page. */
  ghost predicate AccountsTo(s: Summary, page: seq<Key>, n: nat, enrich: Enricher, dryRun: bool) {
    n <= |page| && Accounts(s, page[..n], enrich, dryRun)
  }

  lemma AccountsBegin(s: Summary, page: seq<Key>, enrich: Enricher, dryRun: bool)
    requires Accounts(s, [], enrich, dryRun)
    ensures AccountsTo(s, page, 0, enrich, dryRun)
  {
    assert page[..0] == [];
  }

  lemma AccountsEnd(s: Summary, page: seq<Key>, enrich: Enricher, dryRun: bool)
    requires AccountsTo(s, page, |page|, enrich, dryRun)
    ensures Accounts(s, page, enrich, dryRun)
  {
    assert page[..|page|] == page;
  }

  /** recordFailure. */
  function RecordFailure(s: Summary, key: Key, authOrQuota: bool): Summary {
    s.(failed := s.failed + 1, authOrQuota := s.authOrQuota + if authOrQuota then 1 else 0,
       failures := if |s.failures| >= MAX_SAMPLES then s.failures else s.failures + [key])
  }

  lemma FailedKeysNext(keys: seq<Key>, key: Key, enrich: Enricher)
    ensures FailedKeys(keys + [key], enrich) == FailedKeys(keys, enrich) + if Fails(enrich(key)) then [key] else []
  {
    assert (keys + [key])[..|keys|] == keys;
  }

  lemma CountNext(keys: seq<Key>, key: Key, enrich: Enricher)
    ensures CountUnsupported(keys + [key], enrich)
            == CountUnsupported(keys, enrich) + if enrich(key).Unsupported? then 1 else 0
    ensures CountRefusals(keys + [key], enrich)
            == CountRefusals(keys, enrich) + if enrich(key) == Failure(true) then 1 else 0
  {
    assert (keys + [key])[..|keys|] == keys;
  }

  lemma SamplesNext(keys: seq<Key>, key: Key)
    ensures Samples(keys + [key]) == if |Samples(keys)| >= MAX_SAMPLES then Samples(keys) else Samples(keys) + [key]
  {
  }

  /** Rows went from unknown to known only by this walk's inspections or by other workers. */
  ghost predicate RepairedBy(a: Table, b: Table, ids: seq<Id>, theirs: set<Id>) {
    forall id | Repaired(a, b, id) :: id in ids || id in theirs
  }

  lemma RepairedByTwice(a: Table, b: Table, c: Table, ids: seq<Id>, theirs: set<Id>, more: seq<Id>, others: set<Id>)
    requires Evolves(a, b) && Evolves(b, c) && RepairedBy(a, b, ids, theirs) && RepairedBy(b, c, more, others)
    ensures RepairedBy(a, c, ids + more, theirs + others)
  {
    forall id | Repaired(a, c, id) ensures id in ids + more || id in theirs + others {
      assert Repaired(a, b, id) || Repaired(b, c, id);
    }
  }

  lemma TheirsThenMine(a: Table, b: Table, c: Table, theirs: set<Id>, mine: seq<Id>)
    requires Evolves(a, b) && Evolves(b, c) && RepairedBy(a, b, [], theirs) && RepairedBy(b, c, mine, {})
    ensures RepairedBy(a, c, mine, theirs)
  {
    RepairedByTwice(a, b, c, [], theirs, mine, {});
    assert [] + mine == mine && theirs + {} == theirs;
  }

  class Repairer {
    const store: CommitStore
    const canBackfill: bool

    constructor (store: CommitStore, canBackfill: bool)
      ensures this.store == store && this.canBackfill == canBackfill
    {
      this.store, this.canBackfill := store, canBackfill;
    }

    /** The loop body: one candidate. */
    method Inspect(
      id: Id, key: Key, o: Request, outcome: Outcome, s: Summary, ghost keys: seq<Key>, ghost enrich: Enricher)
      returns (r: Summary)
      requires Accounts(s, keys, enrich, o.dryRun) && outcome == enrich(key)
      modifies store
      ensures Accounts(r, keys + [key], enrich, o.dryRun) && r.nextCursor == s.nextCursor
      ensures Evolves(old(store.rows), store.rows)
      ensures RepairedBy(old(store.rows), store.rows, if o.dryRun then [] else [id], {})
      ensures !o.dryRun && outcome.Complete? && id in store.rows ==> !Unknown(store.rows[id])
    {
      r := s.(scanned := s.scanned + 1);
      match outcome {
        case Unsupported => r := r.(unsupported := r.unsupported + 1);
        case Failure(authOrQuota) =>
          FailureAccounts(s, keys, key, enrich, o.dryRun);
          r := RecordFailure(r, key, authOrQuota);
        case Incomplete =>
          FailureAccounts(s, keys, key, enrich, o.dryRun);
          r := RecordFailure(r, key, false);
        case Complete(info, job) =>
          if o.dryRun {
            r := r.(wouldRepair := r.wouldRepair + 1, wouldBackfill := r.wouldBackfill + if job then 1 else 0);
          } else {
            r := Repair(id, o, info, job, r);
          }
      }
      if !Fails(outcome) {
        OtherAccounts(s, r, keys, key, enrich, o.dryRun);
      }
    }

    method Repair(id: Id, o: Request, info: Info, job: bool, s: Summary) returns (r: Summary)
      modifies store
      ensures Evolves(old(store.rows), store.rows) && RepairedBy(old(store.rows), store.rows, [id], {})
      ensures old(id in store.rows && Unknown(store.rows[id])) ==>
                Repaired(old(store.rows), store.rows, id) && store.rows[id].timestamp == Some(info.timestamp)
                && store.rows[id].forkPoint == Some(info.forkPoint)
      ensures r == s.(repaired := r.repaired, alreadyRepaired := r.alreadyRepaired,
                      backfillEnqueued := r.backfillEnqueued, wouldBackfill := r.wouldBackfill)
      ensures if Repaired(old(store.rows), store.rows, id) then
                && r.repaired == s.repaired + 1 && r.alreadyRepaired == s.alreadyRepaired
                && r.backfillEnqueued == s.backfillEnqueued + (if job && o.backfill && canBackfill then 1 else 0)
                && r.wouldBackfill == s.wouldBackfill + (if job && !(o.backfill && canBackfill) then 1 else 0)
              else r == s.(alreadyRepaired := s.alreadyRepaired + 1) && store.rows == old(store.rows)
    {
      r := s;
      var changed := store.UpdateUnknown(id, info);
      if changed == 0 {
        r := r.(alreadyRepaired := r.alreadyRepaired + 1);
        return;
      }
      r := r.(repaired := r.repaired + 1);
      if !job {
        return;
      }
      if o.backfill && canBackfill && changed == 1 {
        r := r.(backfillEnqueued := r.backfillEnqueued + 1);
        return;
      }
      r := r.(wouldBackfill := r.wouldBackfill + 1);
    }

    /** One turn of the loop: what others did meanwhile, then one candidate. */
    method Turn(
      id: Id, o: Request, enrich: Enricher, repairs: map<Id, Info>, s: Summary, ghost page: seq<Key>, ghost i: nat,
      ghost start: Table) returns (r: Summary)
      requires id in start && Evolves(start, store.rows) && i < |page| && page[i] == KeyOf(start[id])
      requires AccountsTo(s, page, i, enrich, o.dryRun)
      modifies store
      ensures Evolves(old(store.rows), store.rows) && Evolves(start, store.rows)
      ensures RepairedBy(old(store.rows), store.rows, Mine(o, [id]), repairs.Keys)
      ensures AccountsTo(r, page, i + 1, enrich, o.dryRun) && r.nextCursor == s.nextCursor
      ensures !o.dryRun && enrich(page[i]).Complete? ==> !Unknown(store.rows[id])
      ensures forall d | d in repairs && d in store.rows :: !Unknown(store.rows[d])
    {
      store.Others(repairs);
      ghost var between := store.rows;
      var key := KeyOf(store.rows[id]);
      assert page[..i + 1] == page[..i] + [key];
      r := Inspect(id, key, o, enrich(key), s, page[..i], enrich);
      TheirsThenMine(old(store.rows), between, store.rows, repairs.Keys, Mine(o, [id]));
    }

    /** The turn at position i of the page. */
    method Advance(
      ids: seq<Id>, i: nat, o: Request, enrich: Enricher, others: Interference, s: Summary, ghost page: seq<Key>,
      ghost start: Table, ghost theirs: set<Id>) returns (r: Summary, ghost more: set<Id>)
      requires i < |ids| == |page| && ids[i] in start && page[i] == KeyOf(start[ids[i]])
      requires Progress(start, store.rows, o, enrich, ids, page, i, theirs, others, s)
      modifies store
      ensures Progress(start, store.rows, o, enrich, ids, page, i + 1, more, others, r)
      ensures r.nextCursor == s.nextCursor
    {
      r := Turn(ids[i], o, enrich, others(i), s, page, i, start);
      MoreRepairs(start, old(store.rows), store.rows, o, ids, i, theirs, others);
      MoreKnown(old(store.rows), store.rows, o, enrich, ids, i, theirs, others(i).Keys);
      more := theirs + others(i).Keys;
    }

    /** The loop over the page. */
    method InspectAll(ids: seq<Id>, o: Request, enrich: Enricher, others: Interference, s: Summary)
      returns (r: Summary, ghost theirs: set<Id>)
      requires forall i | 0 <= i < |ids| :: ids[i] in store.rows
      requires Accounts(s, [], enrich, o.dryRun)
      modifies store
      ensures Evolves(old(store.rows), store.rows) && RepairedBy(old(store.rows), store.rows, Mine(o, ids), theirs)
      ensures Accounts(r, KeysOf(old(store.rows), ids), enrich, o.dryRun) && r.nextCursor == s.nextCursor
      ensures forall id | id in theirs :: Touches(others, id)
      ensures KnownNow(store.rows, o, enrich, ids, |ids|, theirs)
    {
      r, theirs := s, {};
      ghost var start := store.rows;
      ghost var page := KeysOf(start, ids);
      PageBegins(start, o, enrich, ids, page, others, s);
      for i := 0 to |ids|
        invariant Progress(start, store.rows, o, enrich, ids, page, i, theirs, others, r)
        invariant r.nextCursor == s.nextCursor
      {
        r, theirs := Advance(ids, i, o, enrich, others, r, page, start, theirs);
      }
      PageEnds(start, store.rows, o, enrich, ids, page, theirs, others, r);
    }

    /** The candidates to inspect, and the cursor after them when there are more. */
    method SelectPage(o: Request) returns (ids: seq<Id>, next: Option<Key>)
      requires UniqueKeys(store.rows) && o.limit > 0
      ensures IsPage(store.rows, o.repository, o.cursor, ids) && |ids| <= o.limit
      ensures if next.Some? then |ids| == o.limit && next == CursorAfter(store.rows, o.cursor, ids)
              else forall id | IsCandidate(store.rows, o.repository, o.cursor, id) :: id in ids
    {
      ids := store.Select(o.repository, o.cursor, o.limit + 1);
      next := None;
      if |ids| > o.limit {
        PageShrinks(store.rows, o.repository, o.cursor, ids);
        ids := ids[..o.limit];
        next := CursorAfter(store.rows, o.cursor, ids);
      }
    }

    /** Run: inspects the first `limit` candidates after the cursor, each once and in order. */
    method Run(o: Request, enrich: Enricher, others: Interference)
      returns (r: Summary, error: Option<Error>, ghost inspected: seq<Id>, ghost theirs: set<Id>)
      requires UniqueKeys(store.rows)
      modifies store
      ensures error == ErrorOf(o)
      ensures error.Some? ==> store.rows == old(store.rows) && inspected == []
      ensures Evolves(old(store.rows), store.rows)
          && RepairedBy(old(store.rows), store.rows, Mine(o, inspected), theirs)
      ensures forall id | id in theirs :: Touches(others, id)
      ensures error.None? ==> KnownNow(store.rows, o, enrich, inspected, |inspected|, theirs)
      ensures error.None? ==>
                && IsPage(old(store.rows), o.repository, o.cursor, inspected) && |inspected| <= o.limit
                && Accounts(r, KeysOf(old(store.rows), inspected), enrich, o.dryRun)
                && (if r.nextCursor.Some?
                    then |inspected| == o.limit && r.nextCursor == CursorAfter(old(store.rows), o.cursor, inspected)
                    else forall id | IsCandidate(old(store.rows), o.repository, o.cursor, id) :: id in inspected)
    {
      r := Summary(0, 0, 0, 0, 0, 0, 0, 0, 0, None, []);
      error, inspected, theirs := ErrorOf(o), [], {};
      if error.Some? {
        return;
      }
      var ids, next := SelectPage(o);
      r := r.(nextCursor := next);
      r, theirs := InspectAll(ids, o, enrich, others, r);
      inspected := ids;
    }

    /** One run of a walk: what the next run needs to know of it. */
    method FollowCursor(o: Request, enrich: Enricher, others: Interference)
      returns (next: Option<Key>, ghost page: seq<Id>, ghost theirs: set<Id>)
      requires UniqueKeys(store.rows) && ErrorOf(o).None?
      modifies store
      ensures Evolves(old(store.rows), store.rows) && RepairedBy(old(store.rows), store.rows, Mine(o, page), theirs)
      ensures IsPage(old(store.rows), o.repository, o.cursor, page)
      ensures forall id | id in theirs :: Touches(others, id)
      ensures KnownNow(store.rows, o, enrich, page, |page|, theirs)
      ensures if next.Some? then page != [] && next == CursorAfter(old(store.rows), o.cursor, page)
              else forall id | IsCandidate(old(store.rows), o.repository, o.cursor, id) :: id in page
    {
      var summary, error;
      summary, error, page, theirs := Run(o, enrich, others);
      next := summary.nextCursor;
    }

    /**
     Following NextCursor until it is absent.  The walk ends, inspects rows in strictly ascending order,
     so none twice, and misses only rows that another worker repaired.
     */
    method Walk(o: Request, enrich: Enricher, others: nat -> Interference)
      returns (pages: nat, ghost inspected: seq<Id>, ghost theirs: set<Id>)
      requires UniqueKeys(store.rows) && ErrorOf(o).None?
      modifies store
      ensures Evolves(old(store.rows), store.rows)
          && RepairedBy(old(store.rows), store.rows, Mine(o, inspected), theirs)
      ensures (forall i | 0 <= i < |inspected| ::
                 inspected[i] in old(store.rows) && IsCandidate(old(store.rows), o.repository, o.cursor, inspected[i]))
              && Ascending(KeysOf(old(store.rows), inspected))
      ensures forall id | IsCandidate(old(store.rows), o.repository, o.cursor, id) :: id in inspected || id in theirs
      ensures forall id | id in theirs :: TouchedDuring(others, id)
      ensures KnownNow(store.rows, o, enrich, inspected, |inspected|, theirs)
      ensures !o.dryRun ==>
                forall id | IsCandidate(old(store.rows), o.repository, o.cursor, id)
                            && enrich(KeyOf(old(store.rows)[id])).Complete? ::
                  !Unknown(store.rows[id])
      ensures (forall id: Id :: !TouchedDuring(others, id)) ==>
                forall id :: id in inspected <==> IsCandidate(old(store.rows), o.repository, o.cursor, id)
    {
      ghost var start := store.rows;
      var request := o;
      pages, inspected, theirs := 0, [], {};
      var more := true;
      while more
        invariant request == o.(cursor := request.cursor) && ErrorOf(request).None?
        invariant Evolves(start, store.rows) && RepairedBy(start, store.rows, Mine(o, inspected), theirs)
        invariant Walked(start, o.repository, o.cursor, inspected, theirs)
        invariant KnownNow(store.rows, o, enrich, inspected, |inspected|, theirs)
        invariant forall id | id in theirs :: TouchedDuring(others, id)
        invariant if more then request.cursor == CursorAfter(start, o.cursor, inspected)
                  else forall id | IsCandidate(start, o.repository, o.cursor, id) :: id in inspected || id in theirs
        decreases more, |Candidates(start, o.repository, request.cursor)|
      {
        ghost var before := store.rows;
        EvolvesKeepsUnique(start, before);
        var next;
        ghost var page, theirsNow;
        next, page, theirsNow := FollowCursor(request, enrich, others(pages));
        WalkStep(start, before, o.repository, o.cursor, Mine(o, inspected), inspected, theirs, page, theirsNow);
        RepairedByTwice(start, before, store.rows, Mine(o, inspected), theirs, Mine(o, page), theirsNow);
        EvolvesTwice(start, before, store.rows);
        assert Mine(o, inspected) + Mine(o, page) == Mine(o, inspected + page);
        KnownTogether(before, store.rows, o, enrich, inspected, theirs, page, theirsNow);
        pages := pages + 1;
        if next.None? {
          more := false;
          WalkEnd(start, before, o.repository, o.cursor, Mine(o, inspected), inspected, theirs, page);
        } else {
          WalkAdvances(start, before, o, inspected, page);
          request := request.(cursor := next);
        }
        inspected, theirs := inspected + page, theirs + theirsNow;
      }
      WalkLeavesKnown(start, store.rows, o, enrich, inspected, theirs);
    }
  }

  lemma TurnRepairs(
    start: Table, before: Table, after: Table, o: Request, ids: seq<Id>, i: nat, theirs: set<Id>, others: set<Id>)
    requires i < |ids| && Evolves(start, before) && Evolves(before, after)
    requires RepairedBy(start, before, Mine(o, ids[..i]), theirs)
        && RepairedBy(before, after, Mine(o, [ids[i]]), others)
    ensures RepairedBy(start, after, Mine(o, ids[..i + 1]), theirs + others)
  {
    RepairedByTwice(start, before, after, Mine(o, ids[..i]), theirs, Mine(o, [ids[i]]), others);
    assert ids[..i + 1] == ids[..i] + [ids[i]];
    assert Mine(o, ids[..i + 1]) == Mine(o, ids[..i]) + Mine(o, [ids[i]]);
  }

  /** The rows a run may repair itself. */
  function Mine(o: Request, ids: seq<Id>): seq<Id> {
    if o.dryRun then [] else ids
  }

  /** Another worker tries to repair this row during the run, or during the walk. */
  ghost predicate Touches(others: Interference, id: Id) {
    exists i: nat :: id in others(i)
  }

  /** The state of the rows after the first n candidates of a page. */
  ghost predicate RepairsSoFar(
    start: Table, rows: Table, o: Request, ids: seq<Id>, n: nat, theirs: set<Id>, others: Interference)
  {
    && n <= |ids| && Evolves(start, rows) && RepairedBy(start, rows, Mine(o, ids[..n]), theirs)
    && forall id | id in theirs :: Touches(others, id)
  }

  /**
   Of the first n candidates, those with complete metadata are known, unless nothing is written; so is what
   others repaired.
   */
  ghost predicate KnownNow(rows: Table, o: Request, enrich: Enricher, ids: seq<Id>, n: nat, theirs: set<Id>) {
    && n <= |ids|
    && (forall k | 0 <= k < n ::
          ids[k] in rows && (!o.dryRun && enrich(KeyOf(rows[ids[k]])).Complete? ==> !Unknown(rows[ids[k]])))
    && (forall d | d in theirs && d in rows :: !Unknown(rows[d]))
  }

  lemma MoreKnown(
    before: Table, after: Table, o: Request, enrich: Enricher, ids: seq<Id>, i: nat, theirs: set<Id>, others: set<Id>)
    requires i < |ids| && Evolves(before, after) && KnownNow(before, o, enrich, ids, i, theirs)
    requires ids[i] in after
    requires !o.dryRun && enrich(KeyOf(after[ids[i]])).Complete? ==> !Unknown(after[ids[i]])
    requires forall d | d in others && d in after :: !Unknown(after[d])
    ensures KnownNow(after, o, enrich, ids, i + 1, theirs + others)
  {
    forall k | 0 <= k < i
      ensures ids[k] in after && (!o.dryRun && enrich(KeyOf(after[ids[k]])).Complete? ==> !Unknown(after[ids[k]]))
    {
      EvolvesAt(before, after, ids[k]);
    }
  }

  lemma KnownTogether(
    before: Table, after: Table, o: Request, enrich: Enricher, inspected: seq<Id>, theirs: set<Id>, page: seq<Id>,
    theirsNow: set<Id>)
    requires Evolves(before, after) && KnownNow(before, o, enrich, inspected, |inspected|, theirs)
    requires KnownNow(after, o, enrich, page, |page|, theirsNow)
    ensures KnownNow(after, o, enrich, inspected + page, |inspected + page|, theirs + theirsNow)
  {
    var all := inspected + page;
    forall k | 0 <= k < |all|
      ensures all[k] in after && (!o.dryRun && enrich(KeyOf(after[all[k]])).Complete? ==> !Unknown(after[all[k]]))
    {
      assert all[k] == if k < |inspected| then inspected[k] else page[k - |inspected|];
    }
  }

  /** Where the loop over a page stands after n candidates. */
  ghost predicate Progress(
    start: Table, rows: Table, o: Request, enrich: Enricher, ids: seq<Id>, page: seq<Key>, n: nat, theirs: set<Id>,
    others: Interference, s: Summary)
  {
    && RepairsSoFar(start, rows, o, ids, n, theirs, others)
    && AccountsTo(s, page, n, enrich, o.dryRun) && KnownNow(rows, o, enrich, ids, n, theirs)
  }

  lemma PageBegins(
    start: Table, o: Request, enrich: Enricher, ids: seq<Id>, page: seq<Key>, others: Interference, s: Summary)
    requires Accounts(s, [], enrich, o.dryRun)
    ensures Progress(start, start, o, enrich, ids, page, 0, {}, others, s)
  {
    NoRepairsYet(start, o, ids, others);
    AccountsBegin(s, page, enrich, o.dryRun);
  }

  lemma PageEnds(
    start: Table, rows: Table, o: Request, enrich: Enricher, ids: seq<Id>, page: seq<Key>, theirs: set<Id>,
    others: Interference, s: Summary)
    requires |page| == |ids| && Progress(start, rows, o, enrich, ids, page, |ids|, theirs, others, s)
    ensures Evolves(start, rows) && RepairedBy(start, rows, Mine(o, ids), theirs) && Accounts(s, page, enrich, o.dryRun)
    ensures KnownNow(rows, o, enrich, ids, |ids|, theirs) && forall id | id in theirs :: Touches(others, id)
  {
    AllRepairs(start, rows, o, ids, theirs, others);
    AccountsEnd(s, page, enrich, o.dryRun);
  }

  lemma NoRepairsYet(start: Table, o: Request, ids: seq<Id>, others: Interference)
    ensures RepairsSoFar(start, start, o, ids, 0, {}, others)
  {
  }

  lemma AllRepairs(start: Table, rows: Table, o: Request, ids: seq<Id>, theirs: set<Id>, others: Interference)
    requires RepairsSoFar(start, rows, o, ids, |ids|, theirs, others)
    ensures RepairedBy(start, rows, Mine(o, ids), theirs)
  {
    assert ids[..|ids|] == ids;
  }

  lemma MoreRepairs(
    start: Table, before: Table, after: Table, o: Request, ids: seq<Id>, i: nat, theirs: set<Id>, others: Interference)
    requires i < |ids| && RepairsSoFar(start, before, o, ids, i, theirs, others)
    requires Evolves(before, after) && RepairedBy(before, after, Mine(o, [ids[i]]), others(i).Keys)
    ensures RepairsSoFar(start, after, o, ids, i + 1, theirs + others(i).Keys, others)
  {
    EvolvesTwice(start, before, after);
    TurnRepairs(start, before, after, o, ids, i, theirs, others(i).Keys);
    TouchesGrow(others, theirs, i);
  }

  lemma TouchesGrow(others: Interference, theirs: set<Id>, i: nat)
    requires forall id | id in theirs :: Touches(others, id)
    ensures forall id | id in theirs + others(i).Keys :: Touches(others, id)
  {
  }

  ghost predicate TouchedDuring(others: nat -> Interference, id: Id) {
    exists n: nat :: Touches(others(n), id)
  }

  /** A shorter page still skips nothing up to its last row. */
  lemma PageShrinks(t: Table, repository: Option<Text>, after: Option<Key>, ids: seq<Id>)
    requires IsPage(t, repository, after, ids) && |ids| > 1
    ensures IsPage(t, repository, after, ids[..|ids| - 1])
  {
    var n := |ids| - 1;
    var page := ids[..n];
    assert KeysOf(t, page) == KeysOf(t, ids)[..n];
    forall d | IsCandidate(t, repository, after, d) && d !in page
      ensures IsCandidate(t, repository, CursorAfter(t, after, page), d)
    {
      assert Less(KeysOf(t, ids)[n - 1], KeysOf(t, ids)[n]);
      if d != ids[n] {
        assert d !in ids by { assert ids == page + [ids[n]]; }
        assert IsCandidate(t, repository, CursorAfter(t, after, ids), d);
      }
    }
  }

  // ---------------------------------------------------------------------------------------
  // The walk

  /** Inspected in ascending order, and every row of the start not yet passed is still ahead. */
  ghost predicate Walked(
    start: Table, repository: Option<Text>, after: Option<Key>, inspected: seq<Id>, theirs: set<Id>) {
    && (forall i | 0 <= i < |inspected| :: inspected[i] in start && IsCandidate(start, repository, after, inspected[i]))
    && Ascending(KeysOf(start, inspected))
    && forall id | IsCandidate(start, repository, after, id) && id !in inspected && id !in theirs ::
         IsCandidate(start, repository, CursorAfter(start, after, inspected), id)
  }

  lemma InspectedAreBehind(
    start: Table, repository: Option<Text>, after: Option<Key>, inspected: seq<Id>, theirs: set<Id>, id: Id)
    requires Walked(start, repository, after, inspected, theirs)
    requires IsCandidate(start, repository, CursorAfter(start, after, inspected), id)
    ensures id !in inspected && IsCandidate(start, repository, after, id)
  {
    var keys, n := KeysOf(start, inspected), |inspected|;
    if n > 0 {
      assert forall i | 0 <= i < n :: i == n - 1 || Less(keys[i], keys[n - 1]);
    }
  }

  /** A row still ahead and not repaired by others is a candidate of the next page's query. */
  lemma StillCandidate(
    start: Table, now: Table, repository: Option<Text>, after: Option<Key>, mine: seq<Id>, inspected: seq<Id>,
    theirs: set<Id>, id: Id)
    requires Walked(start, repository, after, inspected, theirs)
    requires Evolves(start, now) && RepairedBy(start, now, mine, theirs) && (mine == inspected || mine == [])
    requires IsCandidate(start, repository, CursorAfter(start, after, inspected), id) && id !in theirs
    ensures IsCandidate(now, repository, CursorAfter(start, after, inspected), id)
  {
    InspectedAreBehind(start, repository, after, inspected, theirs, id);
    assert !Repaired(start, now, id);
  }

  lemma CandidateBefore(start: Table, now: Table, repository: Option<Text>, after: Option<Key>, id: Id)
    requires Evolves(start, now) && IsCandidate(now, repository, after, id)
    ensures IsCandidate(start, repository, after, id)
  {
  }

  lemma KeysJoin(t: Table, a: seq<Id>, b: seq<Id>)
    requires (forall i | 0 <= i < |a| :: a[i] in t) && forall i | 0 <= i < |b| :: b[i] in t
    ensures forall i | 0 <= i < |a + b| :: (a + b)[i] in t
    ensures KeysOf(t, a + b) == KeysOf(t, a) + KeysOf(t, b)
  {
  }

  lemma AscendingJoin(a: seq<Key>, b: seq<Key>)
    requires Ascending(a) && Ascending(b)
    requires a != [] ==> forall j | 0 <= j < |b| :: Less(a[|a| - 1], b[j])
    ensures Ascending(a + b)
  {
    var n := |a|;
    forall i, j | 0 <= i < n && 0 <= j < |b| ensures Less(a[i], b[j]) {
      assert i == n - 1 || Less(a[i], a[n - 1]);
    }
  }

  lemma PageFromStart(
    start: Table, now: Table, repository: Option<Text>, after: Option<Key>, inspected: seq<Id>, theirs: set<Id>,
    page: seq<Id>)
    requires Walked(start, repository, after, inspected, theirs) && Evolves(start, now)
    requires IsPage(now, repository, CursorAfter(start, after, inspected), page)
    ensures forall i | 0 <= i < |page| ::
              page[i] in start && IsCandidate(start, repository, CursorAfter(start, after, inspected), page[i])
              && IsCandidate(start, repository, after, page[i])
    ensures KeysOf(start, page) == KeysOf(now, page)
  {
    var cursor := CursorAfter(start, after, inspected);
    forall i | 0 <= i < |page|
      ensures page[i] in start && IsCandidate(start, repository, cursor, page[i])
          && IsCandidate(start, repository, after, page[i])
    {
      CandidateBefore(start, now, repository, cursor, page[i]);
      InspectedAreBehind(start, repository, after, inspected, theirs, page[i]);
    }
  }

  lemma WalkStep(
    start: Table, now: Table, repository: Option<Text>, after: Option<Key>, mine: seq<Id>, inspected: seq<Id>,
    theirs: set<Id>, page: seq<Id>, theirsNow: set<Id>)
    requires Walked(start, repository, after, inspected, theirs)
    requires Evolves(start, now) && RepairedBy(start, now, mine, theirs) && (mine == inspected || mine == [])
    requires IsPage(now, repository, CursorAfter(start, after, inspected), page)
    ensures Walked(start, repository, after, inspected + page, theirs + theirsNow)
  {
    PageFromStart(start, now, repository, after, inspected, theirs, page);
    KeysJoin(start, inspected, page);
    AscendingJoin(KeysOf(start, inspected), KeysOf(start, page));
    var all := inspected + page;
    forall i | 0 <= i < |all| ensures all[i] in start && IsCandidate(start, repository, after, all[i]) {
      assert all[i] == if i < |inspected| then inspected[i] else page[i - |inspected|];
    }
    forall id | IsCandidate(start, repository, after, id) && id !in all && id !in theirs + theirsNow
      ensures IsCandidate(start, repository, CursorAfter(start, after, all), id)
    {
      assert id !in inspected && id !in page && id !in theirs;
      StillAhead(start, now, repository, after, mine, inspected, theirs, page, id);
    }
  }

  lemma StillAhead(
    start: Table, now: Table, repository: Option<Text>, after: Option<Key>, mine: seq<Id>, inspected: seq<Id>,
    theirs: set<Id>, page: seq<Id>, id: Id)
    requires Walked(start, repository, after, inspected, theirs)
    requires Evolves(start, now) && RepairedBy(start, now, mine, theirs) && (mine == inspected || mine == [])
    requires IsPage(now, repository, CursorAfter(start, after, inspected), page)
    requires forall i | 0 <= i < |inspected + page| :: (inspected + page)[i] in start
    requires IsCandidate(start, repository, after, id) && id !in inspected && id !in page && id !in theirs
    ensures IsCandidate(start, repository, CursorAfter(start, after, inspected + page), id)
  {
    var all, cursor := inspected + page, CursorAfter(start, after, inspected);
    StillCandidate(start, now, repository, after, mine, inspected, theirs, id);
    assert IsCandidate(now, repository, CursorAfter(now, cursor, page), id);
    if page == [] {
      assert all == inspected;
    } else {
      assert all[|all| - 1] == page[|page| - 1];
    }
  }

  lemma WalkEnd(
    start: Table, now: Table, repository: Option<Text>, after: Option<Key>, mine: seq<Id>, inspected: seq<Id>,
    theirs: set<Id>, page: seq<Id>)
    requires Walked(start, repository, after, inspected, theirs)
    requires Evolves(start, now) && RepairedBy(start, now, mine, theirs) && (mine == inspected || mine == [])
    requires forall id | IsCandidate(now, repository, CursorAfter(start, after, inspected), id) :: id in page
    ensures forall id | IsCandidate(start, repository, after, id) :: id in inspected + page || id in theirs
  {
    forall id | IsCandidate(start, repository, after, id) ensures id in inspected + page || id in theirs {
      if id !in inspected && id !in theirs {
        StillCandidate(start, now, repository, after, mine, inspected, theirs, id);
        assert id in page;
      }
    }
  }

  /** Each page with a successor leaves fewer rows ahead, and its cursor is one Run accepts. */
  lemma WalkAdvances(start: Table, now: Table, o: Request, inspected: seq<Id>, page: seq<Id>)
    requires (forall i | 0 <= i < |inspected| :: inspected[i] in start) && Evolves(start, now) && page != []
    requires ErrorOf(o).None? && IsPage(now, o.repository, CursorAfter(start, o.cursor, inspected), page)
    ensures var cursor := CursorAfter(start, o.cursor, inspected);
            var next := CursorAfter(now, cursor, page);
            && |Candidates(start, o.repository, next)| < |Candidates(start, o.repository, cursor)|
            && ErrorOf(o.(cursor := next)).None?
            && (forall i | 0 <= i < |inspected + page| :: (inspected + page)[i] in start)
            && next == CursorAfter(start, o.cursor, inspected + page)
  {
    var cursor := CursorAfter(start, o.cursor, inspected);
    var last := page[|page| - 1];
    var next := KeyOf(now[last]);
    assert IsCandidate(now, o.repository, cursor, last);
    CandidateBefore(start, now, o.repository, cursor, last);
    assert (inspected + page)[|inspected + page| - 1] == last;
    FewerAhead(start, o.repository, cursor, next, last);
  }

  lemma FewerAhead(t: Table, repository: Option<Text>, cursor: Option<Key>, next: Key, last: Id)
    requires last in t && IsCandidate(t, repository, cursor, last) && KeyOf(t[last]) == next
    ensures |Candidates(t, repository, Some(next))| < |Candidates(t, repository, cursor)|
  {
    var ahead, now := Candidates(t, repository, Some(next)), Candidates(t, repository, cursor);
    assert forall id :: id in ahead ==> id in now && id != last;
    assert last in now;
    Smaller(ahead, now, last);
  }

  lemma Smaller(a: set<Id>, b: set<Id>, x: Id)
    requires x in b && forall y :: y in a ==> y in b && y != x
    ensures |a| < |b|
  {
    var rest := b - {x};
    assert forall y :: y in a ==> y in rest;
    SubsetSize(a, rest);
  }

  lemma {:induction false} SubsetSize(a: set<Id>, b: set<Id>)
    requires forall y :: y in a ==> y in b
    ensures |a| <= |b|
    decreases |a|
  {
    if a != {} {
      var x := SomeElement(a);
      SubsetSize(a - {x}, b - {x});
    }
  }

  /** At the end every row the walk set out from whose metadata is complete is known, repaired by it or by another. */
  lemma WalkLeavesKnown(start: Table, now: Table, o: Request, enrich: Enricher, inspected: seq<Id>, theirs: set<Id>)
    requires Evolves(start, now) && KnownNow(now, o, enrich, inspected, |inspected|, theirs)
    requires forall id | IsCandidate(start, o.repository, o.cursor, id) :: id in inspected || id in theirs
    ensures !o.dryRun ==>
              forall id | IsCandidate(start, o.repository, o.cursor, id) && enrich(KeyOf(start[id])).Complete? ::
                !Unknown(now[id])
  {
    forall id | !o.dryRun && IsCandidate(start, o.repository, o.cursor, id) && enrich(KeyOf(start[id])).Complete?
      ensures !Unknown(now[id])
    {
      if id in inspected {
        var k :| 0 <= k < |inspected| && inspected[k] == id;
      }
    }
  }
}
