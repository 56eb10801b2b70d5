/**
 The backfill worker of internal/commit/backfill.go: one running loop per repository, later jobs
 queued behind it, a wait group for the loops and a shutdown that drains them.

 `Shared` is what the mutex guards.  The class shows the critical sections as the source writes
 them; the protocol below interleaves them with running jobs, exiting loops and Shutdown.
 */
module Backfiller {
  import opened Options

  type Repo = int
  datatype Job = Job(id: int, repo: Repo)

  datatype RepoState = RepoState(running: bool, pending: seq<Job>)

  datatype Shared = Shared(repos: map<Repo, RepoState>, closed: bool, wg: nat)

  // ---------------------------------------------------------------------------------------
  // The critical sections

  /** Enqueue's effect on the shared state. */
  function Enqueued(sh: Shared, job: Job): Shared {
    if sh.closed then sh
    else if job.repo in sh.repos && sh.repos[job.repo].running then
      var st := sh.repos[job.repo];
      sh.(repos := sh.repos[job.repo := st.(pending := st.pending + [job])])
    else
      var pending := if job.repo in sh.repos then sh.repos[job.repo].pending else [];
      sh.(repos := sh.repos[job.repo := RepoState(true, pending)], wg := sh.wg + 1)
  }

  /** Whether Enqueue starts a new loop for the job. */
  predicate Starts(sh: Shared, job: Job) {
    !sh.closed && !(job.repo in sh.repos && sh.repos[job.repo].running)
  }

  /** The loop's critical section after a job: the next job, or the entry is dropped. */
  function NextJob(sh: Shared, repo: Repo): Option<Job>
    requires repo in sh.repos
  {
    if sh.repos[repo].pending == [] then None else Some(sh.repos[repo].pending[0])
  }

  function AfterJob(sh: Shared, repo: Repo): Shared
    requires repo in sh.repos
  {
    var st := sh.repos[repo];
    if st.pending == [] then sh.(repos := sh.repos - {repo})
    else sh.(repos := sh.repos[repo := st.(pending := st.pending[1..])])
  }

  class Worker {
    var state: map<Repo, RepoState>
    var closed: bool
    var wg: nat

    function View(): Shared
      reads this
    {
      Shared(state, closed, wg)
    }

    constructor ()
      ensures View() == Shared(map[], false, 0)
    {
      state, closed, wg := map[], false, 0;
    }

    /** Enqueue; `started` says that a goroutine running `job` was started. */
    method Enqueue(job: Job) returns (started: bool)
      modifies this
      ensures View() == Enqueued(old(View()), job)
      ensures started <==> Starts(old(View()), job)
    {
      if closed {
        return false;
      }
      if job.repo !in state {
        state := state[job.repo := RepoState(false, [])];
      }
      var st := state[job.repo];
      if st.running {
        state := state[job.repo := st.(pending := st.pending + [job])];
        return false;
      }
      state := state[job.repo := st.(running := true)];
      wg := wg + 1;
      return true;
    }

    /** The locked part of runLoop after runOne(job); the entry exists because the loop is running. */
    method TakeNext(job: Job) returns (next: Option<Job>)
      requires job.repo in state
      modifies this`state
      ensures View() == AfterJob(old(View()), job.repo)
      ensures next == NextJob(old(View()), job.repo)
    {
      var st := state[job.repo];
      if |st.pending| == 0 {
        state := state - {job.repo};
        return None;
      }
      next := Some(st.pending[0]);
      // copy(pending, pending[1:]) shifts the slice, which is then truncated by one
      var shifted := st.pending[1..] + [st.pending[|st.pending| - 1]];
      assert shifted[..|st.pending| - 1] == st.pending[1..];
      state := state[job.repo := st.(pending := shifted[..|st.pending| - 1])];
    }

    /** The locked part of Shutdown. */
    method Close()
      modifies this`closed
      ensures View() == old(View()).(closed := true)
    {
      closed := true;
    }
  }

  // ---------------------------------------------------------------------------------------
  // The protocol

  /** A goroutine of runLoop: running a job, about to lock, returned but not yet Done, or gone. */
  datatype Loop = Running(job: Job) | Between(job: Job) | Exiting | Gone

  datatype Shutdown = NotCalled | Waiting(timedOut: bool) | Returned(timedOut: bool)

  /** `accepted` and `finished` record the jobs taken on and the jobs run; `owner` is a history variable. */
  datatype State = State(
    shared: Shared, loops: seq<Loop>, shutdown: Shutdown,
    accepted: seq<Job>, finished: seq<Job>, owner: map<Repo, nat>)

  datatype Step =
    | Enqueue(job: Job) | FinishJob(l: nat) | Continue(l: nat) | WgDone(l: nat)
    | CallShutdown | DeadlinePasses | ShutdownReturns

  predicate Enabled(s: State, step: Step) {
    match step
    case Enqueue(_) => true
    case FinishJob(l) => l < |s.loops| && s.loops[l].Running?
    case Continue(l) => l < |s.loops| && s.loops[l].Between? && s.loops[l].job.repo in s.shared.repos
    case WgDone(l) => l < |s.loops| && s.loops[l].Exiting? && s.shared.wg > 0
    case CallShutdown => s.shutdown.NotCalled?
    case DeadlinePasses => s.shutdown.Waiting?
    case ShutdownReturns => s.shutdown.Waiting? && s.shared.wg == 0
  }

  function Apply(s: State, step: Step): State
    requires Enabled(s, step)
  {
    match step
    case Enqueue(job) =>
      if s.shared.closed then s
      else if Starts(s.shared, job) then
        s.(shared := Enqueued(s.shared, job), loops := s.loops + [Running(job)],
           accepted := s.accepted + [job], owner := s.owner[job.repo := |s.loops|])
      else s.(shared := Enqueued(s.shared, job), accepted := s.accepted + [job])
    case FinishJob(l) =>
      s.(loops := s.loops[l := Between(s.loops[l].job)], finished := s.finished + [s.loops[l].job])
    case Continue(l) =>
      var repo := s.loops[l].job.repo;
      var next := NextJob(s.shared, repo);
      s.(shared := AfterJob(s.shared, repo),
         loops := s.loops[l := if next.None? then Exiting else Running(next.value)],
         owner := if next.None? then s.owner - {repo} else s.owner)
    case WgDone(l) => s.(loops := s.loops[l := Gone], shared := s.shared.(wg := s.shared.wg - 1))
    case CallShutdown => s.(shutdown := Waiting(false), shared := s.shared.(closed := true))
    case DeadlinePasses => s.(shutdown := Waiting(true))
    case ShutdownReturns => s.(shutdown := Returned(s.shutdown.timedOut))
  }

  const INIT := State(Shared(map[], false, 0), [], NotCalled, [], [], map[])

  predicate CanRun(s: State, steps: seq<Step>)
    decreases steps
  {
    steps == [] || (Enabled(s, steps[0]) && CanRun(Apply(s, steps[0]), steps[1..]))
  }

  function Run(s: State, steps: seq<Step>): State
    requires CanRun(s, steps)
    decreases steps
  {
    if steps == [] then s else Run(Apply(s, steps[0]), steps[1..])
  }

  // ---------------------------------------------------------------------------------------
  // The invariant

  /** The jobs of one repository, in order. */
  function Of(jobs: seq<Job>, repo: Repo): seq<Job> {
    if jobs == [] then [] else
      Of(jobs[..|jobs|-1], repo) + if jobs[|jobs|-1].repo == repo then [jobs[|jobs|-1]] else []
  }

  lemma OfAppend(jobs: seq<Job>, job: Job, repo: Repo)
    ensures Of(jobs + [job], repo) == Of(jobs, repo) + if job.repo == repo then [job] else []
  {
    assert (jobs + [job])[..|jobs|] == jobs;
  }

  predicate Live(l: Loop) {
    l.Running? || l.Between?
  }

  /** How many loops are live (or, with `live` false, exiting). */
  function Count(loops: seq<Loop>, live: bool): nat {
    if loops == [] then 0 else
      Count(loops[..|loops|-1], live) + if Counts(loops[|loops|-1], live) then 1 else 0
  }

  predicate Counts(l: Loop, live: bool) {
    if live then Live(l) else l.Exiting?
  }

  lemma CountAppend(loops: seq<Loop>, l: Loop, live: bool)
    ensures Count(loops + [l], live) == Count(loops, live) + if Counts(l, live) then 1 else 0
  {
    assert (loops + [l])[..|loops|] == loops;
  }

  lemma {:induction false} CountUpdate(loops: seq<Loop>, i: nat, l: Loop, live: bool)
    requires i < |loops|
    ensures Count(loops[i := l], live)
            == Count(loops, live) - (if Counts(loops[i], live) then 1 else 0) + if Counts(l, live) then 1 else 0
    decreases loops
  {
    var n := |loops| - 1;
    if i == n {
      assert loops[i := l][..n] == loops[..n];
    } else {
      assert loops[i := l][..n] == loops[..n][i := l];
      CountUpdate(loops[..n], i, l, live);
    }
  }

  lemma {:induction false} CountZeroIff(loops: seq<Loop>, live: bool)
    ensures Count(loops, live) == 0 <==> forall i | 0 <= i < |loops| :: !Counts(loops[i], live)
    decreases loops
  {
    if loops != [] {
      CountZeroIff(loops[..|loops|-1], live);
      assert forall i | 0 <= i < |loops| - 1 :: loops[..|loops|-1][i] == loops[i];
    }
  }

  predicate AllFor(jobs: seq<Job>, r: Repo) {
    forall i | 0 <= i < |jobs| :: jobs[i].repo == r
  }

  /** The map holds exactly the repositories with a live loop, one loop each, and queued jobs carry their key. */
  predicate OneLoopPerRepo(s: State) {
    && s.shared.repos.Keys == s.owner.Keys
    && (forall r | r in s.shared.repos ::
          && s.shared.repos[r].running
          && AllFor(s.shared.repos[r].pending, r)
          && s.owner[r] < |s.loops| && Live(s.loops[s.owner[r]]) && s.loops[s.owner[r]].job.repo == r)
    && (forall l | 0 <= l < |s.loops| && Live(s.loops[l]) ::
          s.loops[l].job.repo in s.owner && s.owner[s.loops[l].job.repo] == l)
  }

  /** The wait group counts the loops that have not called Done; the map counts those still live. */
  predicate Counted(s: State) {
    && |s.shared.repos| == Count(s.loops, true)
    && s.shared.wg == Count(s.loops, true) + Count(s.loops, false)
  }

  /** What is neither finished nor queued for the repository: the job its loop is running. */
  function Current(s: State, r: Repo): seq<Job> {
    if r in s.owner && s.owner[r] < |s.loops| && s.loops[s.owner[r]].Running? then [s.loops[s.owner[r]].job] else []
  }

  function Pending(s: State, r: Repo): seq<Job> {
    if r in s.shared.repos then s.shared.repos[r].pending else []
  }

  /** Conservation, per repository and in order: accepted == finished + running + queued. */
  ghost predicate Ordered(s: State) {
    forall r: Repo :: InOrder(s, r)
  }

  predicate InOrder(s: State, r: Repo) {
    Of(s.accepted, r) == Of(s.finished, r) + Current(s, r) + Pending(s, r)
  }

  predicate ShutdownInv(s: State) {
    && (!s.shutdown.NotCalled? ==> s.shared.closed)
    && (s.shutdown.Returned? ==> s.shared.wg == 0)
  }

  ghost predicate Inv(s: State) {
    OneLoopPerRepo(s) && Counted(s) && Ordered(s) && ShutdownInv(s)
  }

  lemma EnqueueKeepsOneLoop(s: State, job: Job)
    requires OneLoopPerRepo(s)
    ensures OneLoopPerRepo(Apply(s, Enqueue(job)))
  {
    var t := Apply(s, Enqueue(job));
    forall r | r in t.shared.repos && r != job.repo
      ensures r in s.shared.repos && t.shared.repos[r] == s.shared.repos[r] && t.owner[r] == s.owner[r]
    {
    }
  }

  /** A repository whose entry, owner and loop are untouched stays in order. */
  lemma ContinueKeepsOthers(s: State, l: nat)
    requires OneLoopPerRepo(s) && Enabled(s, Continue(l))
    ensures var repo := s.loops[l].job.repo;
            && s.owner[repo] == l
            && (forall r | r in s.owner && r != repo :: s.owner[r] != l)
            && (forall k | 0 <= k < |s.loops| && k != l && Live(s.loops[k]) :: s.loops[k].job.repo != repo)
  {
  }

  lemma ContinueKeepsOneLoop(s: State, l: nat)
    requires OneLoopPerRepo(s) && Enabled(s, Continue(l))
    ensures OneLoopPerRepo(Apply(s, Continue(l)))
  {
    ContinueKeepsOthers(s, l);
    var t := Apply(s, Continue(l));
    var repo := s.loops[l].job.repo;
    assert AllFor(s.shared.repos[repo].pending, repo);
    if s.shared.repos[repo].pending == [] {
      assert t.shared.repos.Keys == s.shared.repos.Keys - {repo} == t.owner.Keys;
    } else {
      assert t.shared.repos.Keys == s.shared.repos.Keys == t.owner.Keys;
      assert t.loops[l].job.repo == repo;
      assert AllFor(t.shared.repos[repo].pending, repo);
    }
  }

  lemma StepKeepsOneLoop(s: State, step: Step)
    requires OneLoopPerRepo(s) && Enabled(s, step)
    ensures OneLoopPerRepo(Apply(s, step))
  {
    match step
    case Enqueue(job) => EnqueueKeepsOneLoop(s, job);
    case Continue(l) => ContinueKeepsOneLoop(s, l);
    case _ =>
  }

  lemma EnqueueKeepsCounted(s: State, job: Job)
    requires OneLoopPerRepo(s) && Counted(s)
    ensures Counted(Apply(s, Enqueue(job)))
  {
    var t := Apply(s, Enqueue(job));
    if !s.shared.closed {
      if Starts(s.shared, job) {
        assert job.repo !in s.shared.repos;
        assert t.shared.repos.Keys == s.shared.repos.Keys + {job.repo};
        CountAppend(s.loops, Running(job), true);
        CountAppend(s.loops, Running(job), false);
      } else {
        assert t.shared.repos.Keys == s.shared.repos.Keys;
      }
      assert |t.shared.repos| == |t.shared.repos.Keys| && |s.shared.repos| == |s.shared.repos.Keys|;
    }
  }

  lemma ContinueKeepsCounted(s: State, l: nat)
    requires OneLoopPerRepo(s) && Counted(s) && Enabled(s, Continue(l))
    ensures Counted(Apply(s, Continue(l)))
  {
    var t := Apply(s, Continue(l));
    var repo := s.loops[l].job.repo;
    CountUpdate(s.loops, l, t.loops[l], true);
    CountUpdate(s.loops, l, t.loops[l], false);
    if t.loops[l].Exiting? {
      assert t.shared.repos.Keys == s.shared.repos.Keys - {repo};
    } else {
      assert t.shared.repos.Keys == s.shared.repos.Keys;
    }
    assert |t.shared.repos| == |t.shared.repos.Keys| && |s.shared.repos| == |s.shared.repos.Keys|;
  }

  lemma StepKeepsCounted(s: State, step: Step)
    requires OneLoopPerRepo(s) && Counted(s) && Enabled(s, step)
    ensures Counted(Apply(s, step))
  {
    match step
    case Enqueue(job) => EnqueueKeepsCounted(s, job);
    case Continue(l) => ContinueKeepsCounted(s, l);
    case FinishJob(l) =>
      CountUpdate(s.loops, l, Between(s.loops[l].job), true);
      CountUpdate(s.loops, l, Between(s.loops[l].job), false);
    case WgDone(l) =>
      CountUpdate(s.loops, l, Gone, true);
      CountUpdate(s.loops, l, Gone, false);
    case _ =>
  }

  /** What Enqueue does to the repository's running and queued jobs. */
  lemma EnqueueMoves(s: State, job: Job, r: Repo)
    requires OneLoopPerRepo(s) && !s.shared.closed
    ensures var t := Apply(s, Enqueue(job));
            if r != job.repo then Current(t, r) == Current(s, r) && Pending(t, r) == Pending(s, r)
            else if Starts(s.shared, job) then
              Current(s, r) == [] && Pending(s, r) == [] && Current(t, r) == [job] && Pending(t, r) == []
            else Current(t, r) == Current(s, r) && Pending(t, r) == Pending(s, r) + [job]
  {
    if r == job.repo && Starts(s.shared, job) {
      assert r !in s.shared.repos && r !in s.owner;
    }
  }

  lemma AppendLast(finished: seq<Job>, current: seq<Job>, pending: seq<Job>, job: Job)
    ensures finished + current + pending + [job] == finished + current + (pending + [job])
  {
  }

  lemma AppendFirst(finished: seq<Job>, job: Job)
    ensures finished + [] + [] + [job] == finished + [job] + []
  {
  }

  lemma EnqueueKeepsInOrder(s: State, job: Job, r: Repo)
    requires OneLoopPerRepo(s) && InOrder(s, r)
    ensures InOrder(Apply(s, Enqueue(job)), r)
  {
    if !s.shared.closed {
      OfAppend(s.accepted, job, r);
      EnqueueMoves(s, job, r);
      if r == job.repo && Starts(s.shared, job) {
        AppendFirst(Of(s.finished, r), job);
      } else if r == job.repo {
        AppendLast(Of(s.finished, r), Current(s, r), Pending(s, r), job);
      } else {
        assert Of(s.accepted, r) + [] == Of(s.accepted, r);
      }
    }
  }

  lemma FinishMoves(s: State, l: nat, r: Repo)
    requires OneLoopPerRepo(s) && Enabled(s, FinishJob(l))
    ensures var t := Apply(s, FinishJob(l));
            && Pending(t, r) == Pending(s, r)
            && if r == s.loops[l].job.repo then Current(s, r) == [s.loops[l].job] && Current(t, r) == []
               else Current(t, r) == Current(s, r)
  {
  }

  lemma MoveToFinished(finished: seq<Job>, job: Job, pending: seq<Job>)
    ensures finished + [job] + pending == (finished + [job]) + [] + pending
  {
  }

  lemma FinishKeepsInOrder(s: State, l: nat, r: Repo)
    requires OneLoopPerRepo(s) && InOrder(s, r) && Enabled(s, FinishJob(l))
    ensures InOrder(Apply(s, FinishJob(l)), r)
  {
    var job := s.loops[l].job;
    OfAppend(s.finished, job, r);
    FinishMoves(s, l, r);
    if r == job.repo {
      MoveToFinished(Of(s.finished, r), job, Pending(s, r));
    } else {
      assert Of(s.finished, r) + [] == Of(s.finished, r);
    }
  }

  lemma ContinueMoves(s: State, l: nat, r: Repo)
    requires OneLoopPerRepo(s) && Enabled(s, Continue(l))
    ensures var t := Apply(s, Continue(l));
            if r != s.loops[l].job.repo then Current(t, r) == Current(s, r) && Pending(t, r) == Pending(s, r)
            else
              && Current(s, r) == []
              && if Pending(s, r) == [] then Current(t, r) == [] && Pending(t, r) == []
                 else Current(t, r) == [Pending(s, r)[0]] && Pending(t, r) == Pending(s, r)[1..]
  {
    ContinueKeepsOthers(s, l);
  }

  lemma TakeFirst(finished: seq<Job>, pending: seq<Job>)
    requires pending != []
    ensures finished + [] + pending == finished + [pending[0]] + pending[1..]
  {
  }

  lemma ContinueKeepsInOrder(s: State, l: nat, r: Repo)
    requires OneLoopPerRepo(s) && InOrder(s, r) && Enabled(s, Continue(l))
    ensures InOrder(Apply(s, Continue(l)), r)
  {
    ContinueMoves(s, l, r);
    if r == s.loops[l].job.repo && Pending(s, r) != [] {
      TakeFirst(Of(s.finished, r), Pending(s, r));
    }
  }

  lemma StepKeepsInOrder(s: State, step: Step, r: Repo)
    requires OneLoopPerRepo(s) && InOrder(s, r) && Enabled(s, step)
    ensures InOrder(Apply(s, step), r)
  {
    match step
    case Enqueue(job) => EnqueueKeepsInOrder(s, job, r);
    case FinishJob(l) => FinishKeepsInOrder(s, l, r);
    case Continue(l) => ContinueKeepsInOrder(s, l, r);
    case _ =>
      var t := Apply(s, step);
      assert Current(t, r) == Current(s, r) && Pending(t, r) == Pending(s, r);
  }

  lemma StepKeepsOrdered(s: State, step: Step)
    requires Inv(s) && Enabled(s, step)
    ensures Ordered(Apply(s, step))
  {
    forall r ensures InOrder(Apply(s, step), r) {
      StepKeepsInOrder(s, step, r);
    }
  }

  lemma StepKeepsInv(s: State, step: Step)
    requires Inv(s) && Enabled(s, step)
    ensures Inv(Apply(s, step))
  {
    StepKeepsOneLoop(s, step);
    StepKeepsCounted(s, step);
    StepKeepsOrdered(s, step);
  }

  /** The invariant holds in every reachable state. */
  lemma {:induction false} RunKeepsInv(s: State, steps: seq<Step>)
    requires Inv(s) && CanRun(s, steps)
    ensures Inv(Run(s, steps))
    decreases steps
  {
    if steps != [] {
      StepKeepsInv(s, steps[0]);
      RunKeepsInv(Apply(s, steps[0]), steps[1..]);
    }
  }

  lemma ReachableInv(steps: seq<Step>)
    requires CanRun(INIT, steps)
    ensures Inv(Run(INIT, steps))
  {
    assert Inv(INIT);
    RunKeepsInv(INIT, steps);
  }

  // ---------------------------------------------------------------------------------------
  // What the protocol promises

  /** The steps are never refused where the source has no check: the entry and the count are there. */
  lemma LoopStepsAreSafe(s: State, l: nat)
    requires Inv(s) && l < |s.loops|
    ensures s.loops[l].Between? ==> s.loops[l].job.repo in s.shared.repos
    ensures s.loops[l].Exiting? ==> s.shared.wg > 0
  {
    CountZeroIff(s.loops, false);
  }

  /** Jobs of a repository run in the order they were accepted, none twice and none unaccepted. */
  lemma FinishedInOrder(steps: seq<Step>, r: Repo)
    requires CanRun(INIT, steps)
    ensures var s := Run(INIT, steps); Of(s.finished, r) <= Of(s.accepted, r)
  {
    ReachableInv(steps);
    assert InOrder(Run(INIT, steps), r);
  }

  /** Nothing is accepted once the worker is closed. */
  lemma {:induction false} ClosedAcceptsNothing(s: State, steps: seq<Step>)
    requires s.shared.closed && CanRun(s, steps)
    ensures Run(s, steps).shared.closed && Run(s, steps).accepted == s.accepted
    decreases steps
  {
    if steps != [] {
      ClosedAcceptsNothing(Apply(s, steps[0]), steps[1..]);
    }
  }

  /** When Shutdown has returned, every accepted job has run, in order, no loop is left and no entry remains. */
  lemma ShutdownDrains(steps: seq<Step>, r: Repo)
    requires CanRun(INIT, steps) && Run(INIT, steps).shutdown.Returned?
    ensures var s := Run(INIT, steps);
            && Of(s.finished, r) == Of(s.accepted, r)
            && s.shared.repos == map[] && s.shared.closed
            && forall l | 0 <= l < |s.loops| :: s.loops[l].Gone?
  {
    ReachableInv(steps);
    var s := Run(INIT, steps);
    assert InOrder(s, r);
    CountZeroIff(s.loops, true);
    CountZeroIff(s.loops, false);
    assert s.shared.repos.Keys == {};
  }

  /** While a shutdown waits, the loops alone can always move until the wait group is empty. */
  lemma ShutdownCanProceed(s: State) returns (step: Step)
    requires Inv(s) && s.shutdown.Waiting?
    ensures Enabled(s, step) && (step.FinishJob? || step.Continue? || step.WgDone? || step.ShutdownReturns?)
  {
    if l :| 0 <= l < |s.loops| && !s.loops[l].Gone? {
      LoopStepsAreSafe(s, l);
      step := if s.loops[l].Running? then FinishJob(l) else if s.loops[l].Between? then Continue(l) else WgDone(l);
    } else {
      CountZeroIff(s.loops, true);
      CountZeroIff(s.loops, false);
      step := ShutdownReturns;
    }
  }

  // ---------------------------------------------------------------------------------------
  // The drain is finite

  function Weight(loops: seq<Loop>): nat {
    if loops == [] then 0 else Weight(loops[..|loops| - 1]) + LoopWeight(loops[|loops| - 1])
  }

  function LoopWeight(l: Loop): nat {
    match l case Running(_) => 1 case Between(_) => 2 case Exiting => 1 case Gone => 0
  }

  lemma {:induction false} WeightUpdate(loops: seq<Loop>, i: nat, l: Loop)
    requires i < |loops|
    ensures Weight(loops[i := l]) == Weight(loops) - LoopWeight(loops[i]) + LoopWeight(l)
    decreases loops
  {
    var n := |loops| - 1;
    if i == n {
      assert loops[i := l][..n] == loops[..n];
    } else {
      assert loops[i := l][..n] == loops[..n][i := l];
      WeightUpdate(loops[..n], i, l);
    }
  }

  /** How many steps the loops can still take once nothing more is accepted. */
  function DrainLeft(s: State): int {
    2 * (|s.accepted| - |s.finished|) + Weight(s.loops)
  }

  lemma {:induction false} OfCounts(jobs: seq<Job>, job: Job)
    ensures multiset(Of(jobs, job.repo))[job] == multiset(jobs)[job]
    decreases jobs
  {
    if jobs != [] {
      var n := |jobs| - 1;
      OfCounts(jobs[..n], job);
      assert jobs == jobs[..n] + [jobs[n]];
    }
  }

  lemma PrefixCounts(a: seq<Job>, b: seq<Job>, c: seq<Job>, d: seq<Job>, job: Job)
    requires a == b + c + d
    ensures multiset(b)[job] <= multiset(a)[job]
  {
    assert multiset(a) == multiset(b) + multiset(c) + multiset(d);
  }

  lemma JobCounts(s: State, job: Job)
    requires InOrder(s, job.repo)
    ensures multiset(s.finished)[job] <= multiset(s.accepted)[job]
  {
    var r := job.repo;
    OfCounts(s.finished, job);
    OfCounts(s.accepted, job);
    PrefixCounts(Of(s.accepted, r), Of(s.finished, r), Current(s, r), Pending(s, r), job);
  }

  lemma FewerIn(a: multiset<Job>, b: multiset<Job>)
    requires a <= b
    ensures |a| <= |b|
  {
    assert b == a + (b - a);
  }

  /** No job is finished more often than it was accepted. */
  lemma FinishedWereAccepted(s: State)
    requires Inv(s)
    ensures multiset(s.finished) <= multiset(s.accepted) && |s.finished| <= |s.accepted|
  {
    forall job ensures multiset(s.finished)[job] <= multiset(s.accepted)[job] {
      assert InOrder(s, job.repo);
      JobCounts(s, job);
    }
    FewerIn(multiset(s.finished), multiset(s.accepted));
  }

  predicate IsLoopStep(step: Step) {
    step.FinishJob? || step.Continue? || step.WgDone?
  }

  lemma StepDrains(s: State, step: Step)
    requires s.shared.closed && Enabled(s, step)
    ensures Apply(s, step).shared.closed
    ensures DrainLeft(Apply(s, step)) + (if IsLoopStep(step) then 1 else 0) <= DrainLeft(s)
  {
    match step
    case FinishJob(l) => WeightUpdate(s.loops, l, Between(s.loops[l].job));
    case Continue(l) =>
      var next := NextJob(s.shared, s.loops[l].job.repo);
      WeightUpdate(s.loops, l, if next.None? then Exiting else Running(next.value));
    case WgDone(l) => WeightUpdate(s.loops, l, Gone);
    case _ =>
  }

  function LoopSteps(steps: seq<Step>): nat {
    if steps == [] then 0 else (if IsLoopStep(steps[0]) then 1 else 0) + LoopSteps(steps[1..])
  }

  /**
   After closing, the loops take at most DrainLeft steps in any run.  With ShutdownCanProceed: a waiting
   Shutdown whose loops keep moving returns.
   */
  lemma {:induction false} DrainIsFinite(s: State, steps: seq<Step>)
    requires Inv(s) && s.shared.closed && CanRun(s, steps)
    ensures 0 <= DrainLeft(Run(s, steps)) && LoopSteps(steps) + DrainLeft(Run(s, steps)) <= DrainLeft(s)
    decreases steps
  {
    if steps == [] {
      FinishedWereAccepted(s);
    } else {
      StepDrains(s, steps[0]);
      StepKeepsInv(s, steps[0]);
      DrainIsFinite(Apply(s, steps[0]), steps[1..]);
    }
  }
}
