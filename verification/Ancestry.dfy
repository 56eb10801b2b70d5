/**
 The ancestry of a baseline commit (SelectCIReportBaselineAncestry, internal/db/ci_report.sql.go): follow
 parent hashes inside one repository, at most `limit` commits, nearest first.  (repository, sha) is unique,
 so one repository's commits are a map.
 */
module Ancestry {
  import opened Options
  import BaselineChoice

  type Sha = int

  datatype Row = Row(id: int, parent: Option<Sha>, timestamp: Option<int>)

  type Repository = map<Sha, Row>

  /** The recursive query, by depth. */
  function Ancestors(repo: Repository, sha: Sha, limit: nat): (r: seq<Sha>)
    ensures |r| <= limit
    decreases limit
  {
    if limit == 0 || sha !in repo then []
    else [sha] + if repo[sha].parent.Some? then Ancestors(repo, repo[sha].parent.value, limit - 1) else []
  }

  predicate HasParent(repo: Repository, sha: Sha) {
    sha in repo && repo[sha].parent.Some? && repo[sha].parent.value in repo
  }

  /** Each commit is stored and followed by its parent; a list shorter than the limit ends where no parent is stored. */
  lemma {:induction false} AncestorsChain(repo: Repository, sha: Sha, limit: nat)
    ensures var a := Ancestors(repo, sha, limit);
            && (forall i | 0 <= i < |a| :: a[i] in repo)
            && (forall i, j | 0 <= i < |a| && j == i + 1 && j < |a| :: repo[a[i]].parent == Some(a[j]))
            && (a != [] ==> a[0] == sha)
            && (|a| < limit && sha in repo ==> a != [] && !HasParent(repo, a[|a| - 1]))
    decreases limit
  {
    if limit > 0 && sha in repo && repo[sha].parent.Some? {
      AncestorsChain(repo, repo[sha].parent.value, limit - 1);
    }
  }

  predicate Distinct(a: seq<Sha>) {
    forall i, j | 0 <= i < j < |a| :: a[i] != a[j]
  }

  /** Once a commit repeats, everything after it repeats. */
  lemma {:induction false} RepeatsGoOn(repo: Repository, sha: Sha, limit: nat, i: nat, j: nat, k: nat)
    requires i < j && j + k < |Ancestors(repo, sha, limit)|
    requires Ancestors(repo, sha, limit)[i] == Ancestors(repo, sha, limit)[j]
    ensures Ancestors(repo, sha, limit)[i + k] == Ancestors(repo, sha, limit)[j + k]
    decreases k
  {
    AncestorsChain(repo, sha, limit);
    var a := Ancestors(repo, sha, limit);
    if k > 0 {
      RepeatsGoOn(repo, sha, limit, i, j, k - 1);
      var before, after := i + k - 1, i + k;
      assert repo[a[before]].parent == Some(a[after]);
      var before', after' := j + k - 1, j + k;
      assert repo[a[before']].parent == Some(a[after']);
    }
  }

  /**
   A walk that ends before its limit met no commit twice: only a parent cycle repeats one, and it never ends by
   itself.
   */
  lemma ShortAncestryIsDistinct(repo: Repository, sha: Sha, limit: nat)
    requires |Ancestors(repo, sha, limit)| < limit
    ensures Distinct(Ancestors(repo, sha, limit))
  {
    var a := Ancestors(repo, sha, limit);
    AncestorsChain(repo, sha, limit);
    forall i, j | 0 <= i < j < |a| ensures a[i] != a[j] {
      var k := |a| - 1 - j;
      var before, after := i + k, i + k + 1;
      assert repo[a[before]].parent == Some(a[after]);
      assert HasParent(repo, a[before]);
      if a[i] == a[j] {
        RepeatsGoOn(repo, sha, limit, i, j, k);
      }
    }
  }

  /** Parents come strictly earlier under some ranking: there is no parent cycle. */
  ghost predicate Ranked(repo: Repository, rank: Sha -> nat) {
    forall s | HasParent(repo, s) :: rank(repo[s].parent.value) < rank(s)
  }

  lemma {:induction false} RanksFall(repo: Repository, sha: Sha, limit: nat, rank: Sha -> nat, i: nat, j: nat)
    requires Ranked(repo, rank) && i < j < |Ancestors(repo, sha, limit)|
    ensures rank(Ancestors(repo, sha, limit)[j]) < rank(Ancestors(repo, sha, limit)[i])
    decreases j
  {
    AncestorsChain(repo, sha, limit);
    var a := Ancestors(repo, sha, limit);
    var before := j - 1;
    assert repo[a[before]].parent == Some(a[j]);
    assert HasParent(repo, a[before]);
    if i < before {
      RanksFall(repo, sha, limit, rank, i, before);
    }
  }

  /** Without parent cycles every ancestry has distinct commits, whatever the limit. */
  lemma AcyclicAncestryIsDistinct(repo: Repository, sha: Sha, limit: nat, rank: Sha -> nat)
    requires Ranked(repo, rank)
    ensures Distinct(Ancestors(repo, sha, limit))
  {
    var a := Ancestors(repo, sha, limit);
    forall i, j | 0 <= i < j < |a| ensures a[i] != a[j] {
      RanksFall(repo, sha, limit, rank, i, j);
    }
  }

  predicate UniqueIds(repo: Repository) {
    forall s, t | s in repo && t in repo && repo[s].id == repo[t].id :: s == t
  }

  function Commits(repo: Repository, a: seq<Sha>): (r: seq<BaselineChoice.Commit>)
    requires forall i | 0 <= i < |a| :: a[i] in repo
    ensures |r| == |a| && forall i | 0 <= i < |a| :: r[i] == BaselineChoice.Commit(repo[a[i]].id, repo[a[i]].timestamp)
  {
    seq(|a|, i requires 0 <= i < |a| => BaselineChoice.Commit(repo[a[i]].id, repo[a[i]].timestamp))
  }

  /** So the baseline chosen from this ancestry is determined by what is stored. */
  lemma BaselineIsDetermined(
    repo: Repository, sha: Sha, limit: nat, q: BaselineChoice.Input, a: BaselineChoice.Candidate,
    b: BaselineChoice.Candidate)
    requires UniqueIds(repo) && Distinct(Ancestors(repo, sha, limit))
    requires (forall i | 0 <= i < |Ancestors(repo, sha, limit)| :: Ancestors(repo, sha, limit)[i] in repo)
             && q.ancestry == Commits(repo, Ancestors(repo, sha, limit))
    requires BaselineChoice.Valid(q)
    requires forall d, i | 0 <= d < |q.runs| && 0 <= i < |q.runs[d]| :: q.runs[d][i].commitId == Some(q.ancestry[d].id)
    requires BaselineChoice.IsBest(q, a) && BaselineChoice.IsBest(q, b)
    ensures a == b
  {
    var shas := Ancestors(repo, sha, limit);
    forall d, e | 0 <= d < e < |q.ancestry| ensures q.ancestry[d].id != q.ancestry[e].id {
      assert shas[d] != shas[e];
    }
    BaselineChoice.BestIsUnique(q, a, b);
  }
}
