/**
 streamSubmitWork (cmd/conbench/results.go): a producer decodes fixtures, N workers submit the
 bodies, a collector stores the answers.  `work` is unbuffered, `results` is buffered with one
 slot per worker.  Steps interleave in every order the channels allow.
 */
module SubmitPool {
  import opened Options

  type Body = int
  type Error = int

  /** The server's answer to one submission: the line to print and an error, if any. */
  datatype Answer = Answer(line: int, error: Option<Error>)

  /** A fixture yields bodies and then either ends or fails to decode. */
  datatype Fixture = Fixture(bodies: seq<Body>, broken: bool)

  datatype Line = Placeholder(body: Body) | Answered(line: int) | DecodeFailed

  /** What the producer does next: hand out a body, or report a fixture that failed to decode. */
  datatype Op = Yield(body: Body) | Broken

  function OpsOf(f: Fixture): seq<Op> {
    seq(|f.bodies|, i requires 0 <= i < |f.bodies| => Yield(f.bodies[i])) + if f.broken then [Broken] else []
  }

  function Ops(fixtures: seq<Fixture>): seq<Op> {
    if fixtures == [] then [] else OpsOf(fixtures[0]) + Ops(fixtures[1..])
  }

  /** One call: the fixtures, the number of workers, and the server's answer to the submission made for line i. */
  datatype Config = Config(fixtures: seq<Fixture>, jobs: nat, answer: nat -> Answer)
  {
    const ops := Ops(fixtures)

    /** A decode error of the only fixture aborts the call instead of becoming a line. */
    predicate Aborts(i: nat) {
      |fixtures| == 1 && i < |ops| && ops[i].Broken?
    }

    /** The line a sequential program would print for operation i. */
    function FinalLine(i: nat): Line
      requires i < |ops|
    {
      if ops[i].Broken? then DecodeFailed else Answered(answer(i).line)
    }
  }

  /** Where fixture k's operations begin. */
  function Offset(fixtures: seq<Fixture>, k: nat): nat
    requires k <= |fixtures|
  {
    if k == 0 then 0 else
      Offset(fixtures, k - 1) + |fixtures[k - 1].bodies| + if fixtures[k - 1].broken then 1 else 0
  }

  lemma {:induction false} OffsetOfRest(fixtures: seq<Fixture>, k: nat)
    requires 0 < k <= |fixtures|
    ensures Offset(fixtures, k) == |OpsOf(fixtures[0])| + Offset(fixtures[1..], k - 1)
    decreases k
  {
    if k > 1 {
      OffsetOfRest(fixtures, k - 1);
    }
  }

  /** There is one operation for each body and one for each broken fixture. */
  lemma {:induction false} OpsLength(fixtures: seq<Fixture>)
    ensures |Ops(fixtures)| == Offset(fixtures, |fixtures|)
    decreases |fixtures|
  {
    if fixtures != [] {
      OffsetOfRest(fixtures, |fixtures|);
      OpsLength(fixtures[1..]);
    }
  }

  /** Operation j of fixture k: its j-th body, and after the bodies of a broken fixture its decode error. */
  lemma {:induction false} OpsMeaning(fixtures: seq<Fixture>, k: nat, j: nat)
    requires k < |fixtures| && j < |OpsOf(fixtures[k])|
    ensures Offset(fixtures, k) + j < |Ops(fixtures)|
    ensures Ops(fixtures)[Offset(fixtures, k) + j]
            == if j < |fixtures[k].bodies| then Yield(fixtures[k].bodies[j]) else Broken
    ensures |OpsOf(fixtures[k])| == |fixtures[k].bodies| + if fixtures[k].broken then 1 else 0
    decreases k
  {
    if k > 0 {
      OpsMeaning(fixtures[1..], k - 1, j);
      OffsetOfRest(fixtures, k);
      var n := |OpsOf(fixtures[0])|;
      var i := Offset(fixtures[1..], k - 1) + j;
      assert Ops(fixtures)[n + i] == Ops(fixtures[1..])[i];
    }
  }

  lemma {:induction false} OffsetGrows(fixtures: seq<Fixture>, k: nat, n: nat)
    requires k < n <= |fixtures|
    ensures Offset(fixtures, k) + |fixtures[k].bodies| + (if fixtures[k].broken then 1 else 0) <= Offset(fixtures, n)
    decreases n
  {
    if k < n - 1 {
      OffsetGrows(fixtures, k, n - 1);
    }
  }

  datatype Task = Task(index: nat, answer: Answer)
  datatype Call = Call(index: nat, body: Body)

  datatype Producer = Ready | Handing(call: Call) | Draining | Collecting | Finished
  datatype Worker = Waiting | Busy(call: Call) | Holding(task: Task) | Exited

  /** Where the body of a line currently is. */
  datatype Place = NoBody | AtProducer | AtWorker(w: nat) | Queued | Collected

  /**
   `calls` records every call of submit, `collected` every answer in the order it was collected; `places` is a
   history variable; `panicked` is an index out of range.
   */
  datatype State = State(
    next: nat, producer: Producer, aborted: bool, workers: seq<Worker>, results: seq<Task>, collecting: bool,
    lines: seq<Line>, submitted: nat, firstError: Option<Error>, panicked: bool,
    calls: seq<Call>, places: seq<Place>, collected: seq<Task>)

  datatype Step =
    | Produce | Hand(w: nat) | Submit(w: nat) | Push(w: nat) | CloseWork | Exit(w: nat)
    | CloseResults | Collect | StopCollecting | Finish

  predicate WorkClosed(s: State) {
    s.producer.Draining? || s.producer.Collecting? || s.producer.Finished?
  }

  predicate ResultsClosed(s: State) {
    s.producer.Collecting? || s.producer.Finished?
  }

  predicate AllExited(s: State) {
    forall w | 0 <= w < |s.workers| :: s.workers[w].Exited?
  }

  predicate Enabled(c: Config, s: State, step: Step) {
    match step
    case Produce => s.producer.Ready? && !s.aborted && s.next < |c.ops|
    case Hand(w) => s.producer.Handing? && w < |s.workers| && s.workers[w].Waiting?
    case Submit(w) => w < |s.workers| && s.workers[w].Busy?
    case Push(w) => w < |s.workers| && s.workers[w].Holding? && |s.results| < c.jobs
    case CloseWork => s.producer.Ready? && (s.aborted || s.next >= |c.ops|)
    case Exit(w) => w < |s.workers| && s.workers[w].Waiting? && WorkClosed(s)
    case CloseResults => s.producer.Draining? && AllExited(s)
    case Collect => s.collecting && s.results != []
    case StopCollecting => s.collecting && s.results == [] && ResultsClosed(s)
    case Finish => s.producer.Collecting? && !s.collecting
  }

  function Put<T>(l: seq<T>, i: nat, x: T): seq<T> {
    if i < |l| then l[i := x] else l
  }

  function Apply(c: Config, s: State, step: Step): State
    requires Enabled(c, s, step)
  {
    match step
    case Produce =>
      if c.Aborts(s.next) then s.(next := s.next + 1, aborted := true)
      else if c.ops[s.next].Broken? then
        s.(next := s.next + 1, lines := s.lines + [DecodeFailed], places := s.places + [NoBody])
      else
        var body := c.ops[s.next].body;
        s.(next := s.next + 1, producer := Handing(Call(|s.lines|, body)), submitted := s.submitted + 1,
           lines := s.lines + [Placeholder(body)], places := s.places + [AtProducer])
    case Hand(w) =>
      var call := s.producer.call;
      s.(producer := Ready, workers := s.workers[w := Busy(call)], places := Put(s.places, call.index, AtWorker(w)))
    case Submit(w) =>
      var call := s.workers[w].call;
      s.(workers := s.workers[w := Holding(Task(call.index, c.answer(call.index)))], calls := s.calls + [call])
    case Push(w) =>
      var task := s.workers[w].task;
      s.(workers := s.workers[w := Waiting], results := s.results + [task], places := Put(s.places, task.index, Queued))
    case CloseWork => s.(producer := Draining)
    case Exit(w) => s.(workers := s.workers[w := Exited])
    case CloseResults => s.(producer := Collecting)
    case Collect =>
      var task := s.results[0];
      s.(results := s.results[1..], collected := s.collected + [task],
         panicked := s.panicked || task.index >= |s.lines|,
         lines := Put(s.lines, task.index, Answered(task.answer.line)),
         firstError := if task.answer.error.Some? && s.firstError.None? then task.answer.error else s.firstError,
         places := Put(s.places, task.index, Collected))
    case StopCollecting => s.(collecting := false)
    case Finish => s.(producer := Finished)
  }

  function Init(c: Config): State {
    State(0, Ready, false, seq(c.jobs, _ => Waiting), [], true, [], 0, None, false, [], [], [])
  }

  predicate CanRun(c: Config, s: State, steps: seq<Step>)
    decreases steps
  {
    steps == [] || (Enabled(c, s, steps[0]) && CanRun(c, Apply(c, s, steps[0]), steps[1..]))
  }

  function Run(c: Config, s: State, steps: seq<Step>): State
    requires CanRun(c, s, steps)
    decreases steps
  {
    if steps == [] then s else Run(c, Apply(c, s, steps[0]), steps[1..])
  }

  // ---------------------------------------------------------------------------------------
  // The fixtures as operations

  function CountYields(ops: seq<Op>): nat {
    if ops == [] then 0 else CountYields(ops[..|ops|-1]) + if ops[|ops|-1].Yield? then 1 else 0
  }

  /** Only the last operation of a single fixture can be its decode error. */
  lemma AbortIsLast(c: Config, i: nat)
    requires c.Aborts(i)
    ensures i == |c.ops| - 1
  {
    var f := c.fixtures[0];
    assert c.fixtures[1..] == [];
    assert Ops([]) == [];
    assert Ops(c.fixtures) == OpsOf(f) + [];
  }

  // ---------------------------------------------------------------------------------------
  // The invariant

  /** Channels, counters and lines follow the operations one for one. */
  ghost predicate Shape(c: Config, s: State) {
    && s.next <= |c.ops|
    && (s.aborted ==> s.next > 0 && c.Aborts(s.next - 1) && (s.producer.Ready? || WorkClosed(s)))
    && |s.lines| == (if s.aborted then s.next - 1 else s.next)
    && |s.workers| == c.jobs && |s.results| <= c.jobs
    && (WorkClosed(s) ==> s.aborted || s.next == |c.ops|)
    && (ResultsClosed(s) ==> AllExited(s))
    && (!WorkClosed(s) ==> forall w | 0 <= w < |s.workers| :: !s.workers[w].Exited?)
    && (!s.collecting ==> s.results == [] && ResultsClosed(s))
    && (s.producer.Finished? ==> !s.collecting)
    && s.submitted == CountYields(c.ops[..s.next])
    && !s.panicked
  }

  predicate IsCall(c: Config, call: Call) {
    call.index < |c.ops| && c.ops[call.index] == Yield(call.body)
  }

  /** The producer holds exactly the body recorded at the producer. */
  predicate ProducerPlaced(c: Config, s: State) {
    && (s.producer.Handing? ==>
          IsCall(c, s.producer.call) && s.producer.call.index < |s.places|
              && s.places[s.producer.call.index].AtProducer?)
    && (forall i | 0 <= i < |s.places| && s.places[i].AtProducer? :: s.producer.Handing? && s.producer.call.index == i)
  }

  predicate Carries(w: Worker, i: nat) {
    (w.Busy? && w.call.index == i) || (w.Holding? && w.task.index == i)
  }

  /** Each worker holds exactly the body recorded at it. */
  predicate WorkersPlaced(c: Config, s: State) {
    && (forall w | 0 <= w < |s.workers| && s.workers[w].Busy? ::
          var call := s.workers[w].call;
          IsCall(c, call) && call.index < |s.places| && s.places[call.index] == AtWorker(w))
    && (forall w | 0 <= w < |s.workers| && s.workers[w].Holding? ::
          var task := s.workers[w].task;
          task.index < |s.places| && s.places[task.index] == AtWorker(w) && task.answer == c.answer(task.index))
    && (forall i | 0 <= i < |s.places| && s.places[i].AtWorker? ::
          s.places[i].w < |s.workers| && Carries(s.workers[s.places[i].w], i))
  }

  predicate IsQueued(s: State, i: nat) {
    exists k | 0 <= k < |s.results| :: s.results[k].index == i
  }

  /** The buffer holds exactly the answers recorded as queued, each once. */
  predicate ResultsPlaced(c: Config, s: State) {
    && (forall k | 0 <= k < |s.results| ::
          var task := s.results[k];
          task.index < |s.places| && s.places[task.index].Queued? && task.answer == c.answer(task.index))
    && (forall k, l | 0 <= k < l < |s.results| :: s.results[k].index != s.results[l].index)
    && (forall i | 0 <= i < |s.places| && s.places[i].Queued? :: IsQueued(s, i))
  }

  predicate LinesPlaced(c: Config, s: State) {
    && |s.places| == |s.lines| <= |c.ops|
    && (forall i | 0 <= i < |s.places| :: s.places[i].NoBody? <==> c.ops[i].Broken?)
    && (forall i | 0 <= i < |s.places| && (s.places[i].NoBody? || s.places[i].Collected?) ::
        s.lines[i] == c.FinalLine(i))
    && (s.firstError.None? ==> forall i | 0 <= i < |s.places| && s.places[i].Collected? :: c.answer(i).error.None?)
    && (s.firstError.Some? ==>
          exists i | 0 <= i < |s.places| :: s.places[i].Collected? && c.answer(i).error == s.firstError)
  }

  /** The body of line i has been submitted. */
  predicate WasSubmitted(s: State, i: nat)
    requires i < |s.places|
  {
    || s.places[i].Queued? || s.places[i].Collected?
    || (s.places[i].AtWorker? && s.places[i].w < |s.workers| && s.workers[s.places[i].w].Holding?)
  }

  /** Submissions so far: each submitted body once, no other. */
  ghost predicate CallsOnce(c: Config, s: State) {
    && (forall call | call in s.calls :: IsCall(c, call) && call.index < |s.places| && WasSubmitted(s, call.index))
    && (forall i | 0 <= i < |s.places| && i < |c.ops| && c.ops[i].Yield? && WasSubmitted(s, i) ::
          multiset(s.calls)[Call(i, c.ops[i].body)] == 1)
  }

  ghost predicate Inv(c: Config, s: State) {
    Shape(c, s) && Placed(c, s) && CallsOnce(c, s)
  }

  lemma InitInv(c: Config)
    ensures Inv(c, Init(c))
  {
  }

  lemma ProduceKeepsShape(c: Config, s: State)
    requires Shape(c, s) && Enabled(c, s, Produce)
    ensures Shape(c, Apply(c, s, Produce))
  {
    assert c.ops[..s.next + 1][..s.next] == c.ops[..s.next];
    if c.Aborts(s.next) { AbortIsLast(c, s.next); }
  }

  lemma CollectKeepsShape(c: Config, s: State)
    requires Shape(c, s) && LinesPlaced(c, s) && ResultsPlaced(c, s) && Enabled(c, s, Collect)
    ensures Shape(c, Apply(c, s, Collect))
  {
  }

  lemma StepKeepsShape(c: Config, s: State, step: Step)
    requires Inv(c, s) && Enabled(c, s, step)
    ensures Shape(c, Apply(c, s, step))
  {
    match step
    case Produce => ProduceKeepsShape(c, s);
    case Collect => CollectKeepsShape(c, s);
    case _ => PassKeepsShape(c, s, step);
  }

  lemma PassKeepsShape(c: Config, s: State, step: Step)
    requires Shape(c, s) && Enabled(c, s, step) && !step.Produce? && !step.Collect?
    ensures Shape(c, Apply(c, s, step))
  {
  }

  ghost predicate Placed(c: Config, s: State) {
    LinesPlaced(c, s) && ProducerPlaced(c, s) && WorkersPlaced(c, s) && ResultsPlaced(c, s)
  }

  /** The tables of bodies in transit are untouched but for the listed place. */
  predicate SameErrors(s: State, t: State) {
    |s.places| <= |t.places| && t.firstError == s.firstError
    && forall i | 0 <= i < |s.places| :: s.places[i].Collected? <==> t.places[i].Collected?
  }

  lemma ErrorsKept(c: Config, s: State, t: State)
    requires LinesPlaced(c, s) && SameErrors(s, t)
    ensures t.firstError.Some? ==>
              exists i | 0 <= i < |t.places| :: t.places[i].Collected? && c.answer(i).error == t.firstError
  {
    if s.firstError.Some? {
      var i :| 0 <= i < |s.places| && s.places[i].Collected? && c.answer(i).error == s.firstError;
      assert t.places[i].Collected?;
    }
  }

  lemma QueuedKept(s: State, t: State)
    requires s.results <= t.results
    ensures forall i | IsQueued(s, i) :: IsQueued(t, i)
  {
    forall i | IsQueued(s, i) ensures IsQueued(t, i) {
      var k :| 0 <= k < |s.results| && s.results[k].index == i;
      assert t.results[k].index == i;
    }
  }

  lemma ProduceKeepsLines(c: Config, s: State)
    requires Shape(c, s) && LinesPlaced(c, s) && Enabled(c, s, Produce)
    ensures LinesPlaced(c, Apply(c, s, Produce))
  {
    ErrorsKept(c, s, Apply(c, s, Produce));
  }

  lemma ProduceKeepsHolders(c: Config, s: State)
    requires Shape(c, s) && LinesPlaced(c, s) && ProducerPlaced(c, s) && WorkersPlaced(c, s) && Enabled(c, s, Produce)
    ensures ProducerPlaced(c, Apply(c, s, Produce)) && WorkersPlaced(c, Apply(c, s, Produce))
  {
  }

  lemma ResultsKept(c: Config, s: State, t: State)
    requires ResultsPlaced(c, s) && t.results == s.results && |s.places| <= |t.places|
    requires forall i | 0 <= i < |t.places| ::
        if i < |s.places| then t.places[i] == s.places[i] else !t.places[i].Queued?
    ensures ResultsPlaced(c, t)
  {
    QueuedKept(s, t);
  }

  lemma ProduceKeepsPlaced(c: Config, s: State)
    requires Shape(c, s) && Placed(c, s) && Enabled(c, s, Produce)
    ensures Placed(c, Apply(c, s, Produce))
  {
    ProduceKeepsLines(c, s);
    ProduceKeepsHolders(c, s);
    ResultsKept(c, s, Apply(c, s, Produce));
  }

  lemma HandKeepsPlaced(c: Config, s: State, w: nat)
    requires Shape(c, s) && Placed(c, s) && Enabled(c, s, Hand(w))
    ensures Placed(c, Apply(c, s, Hand(w)))
  {
    var t := Apply(c, s, Hand(w));
    ErrorsKept(c, s, t);
    QueuedKept(s, t);
  }

  lemma SubmitKeepsPlaced(c: Config, s: State, w: nat)
    requires Shape(c, s) && Placed(c, s) && Enabled(c, s, Submit(w))
    ensures Placed(c, Apply(c, s, Submit(w)))
  {
    var t := Apply(c, s, Submit(w));
    ErrorsKept(c, s, t);
    QueuedKept(s, t);
  }

  lemma PushKeepsResults(c: Config, s: State, w: nat)
    requires LinesPlaced(c, s) && WorkersPlaced(c, s) && ResultsPlaced(c, s) && Enabled(c, s, Push(w))
    ensures ResultsPlaced(c, Apply(c, s, Push(w)))
  {
    var t := Apply(c, s, Push(w));
    var task := s.workers[w].task;
    assert t.results == s.results + [task];
    assert forall k | 0 <= k < |s.results| :: s.results[k].index != task.index;
    forall i | 0 <= i < |t.places| && t.places[i].Queued? ensures IsQueued(t, i) {
      if i == task.index {
        assert t.results[|s.results|].index == i;
      } else {
        assert IsQueued(s, i);
        QueuedKept(s, t);
      }
    }
  }

  lemma PushKeepsPlaced(c: Config, s: State, w: nat)
    requires Shape(c, s) && Placed(c, s) && Enabled(c, s, Push(w))
    ensures Placed(c, Apply(c, s, Push(w)))
  {
    PushKeepsResults(c, s, w);
    var t := Apply(c, s, Push(w));
    ErrorsKept(c, s, t);
    assert WorkersPlaced(c, t);
  }

  lemma CollectKeepsLines(c: Config, s: State)
    requires LinesPlaced(c, s) && ResultsPlaced(c, s) && Enabled(c, s, Collect)
    ensures LinesPlaced(c, Apply(c, s, Collect))
  {
    var t := Apply(c, s, Collect);
    assert t.places[s.results[0].index].Collected?;
    if s.firstError.Some? {
      var i :| 0 <= i < |s.places| && s.places[i].Collected? && c.answer(i).error == s.firstError;
      assert t.places[i].Collected?;
    }
  }

  lemma CollectKeepsHolders(c: Config, s: State)
    requires ProducerPlaced(c, s) && WorkersPlaced(c, s) && ResultsPlaced(c, s) && Enabled(c, s, Collect)
    ensures ProducerPlaced(c, Apply(c, s, Collect)) && WorkersPlaced(c, Apply(c, s, Collect))
  {
  }

  lemma CollectKeepsResults(c: Config, s: State)
    requires ResultsPlaced(c, s) && Enabled(c, s, Collect)
    ensures ResultsPlaced(c, Apply(c, s, Collect))
  {
    var t := Apply(c, s, Collect);
    forall i | 0 <= i < |t.places| && t.places[i].Queued? ensures IsQueued(t, i) {
      assert s.places[i].Queued? && IsQueued(s, i);
      var k :| 0 <= k < |s.results| && s.results[k].index == i;
      assert t.results[k - 1].index == i;
    }
  }

  lemma CollectKeepsPlaced(c: Config, s: State)
    requires Shape(c, s) && Placed(c, s) && Enabled(c, s, Collect)
    ensures Placed(c, Apply(c, s, Collect))
  {
    CollectKeepsLines(c, s);
    CollectKeepsHolders(c, s);
    CollectKeepsResults(c, s);
  }

  lemma QuietKeepsPlaced(c: Config, s: State, step: Step)
    requires step.CloseWork? || step.Exit? || step.CloseResults? || step.StopCollecting? || step.Finish?
    requires Shape(c, s) && Placed(c, s) && Enabled(c, s, step)
    ensures Placed(c, Apply(c, s, step))
  {
    var t := Apply(c, s, step);
    ErrorsKept(c, s, t);
    QueuedKept(s, t);
  }

  lemma StepKeepsPlaced(c: Config, s: State, step: Step)
    requires Shape(c, s) && Placed(c, s) && Enabled(c, s, step)
    ensures Placed(c, Apply(c, s, step))
  {
    match step
    case Produce => ProduceKeepsPlaced(c, s);
    case Hand(w) => HandKeepsPlaced(c, s, w);
    case Submit(w) => SubmitKeepsPlaced(c, s, w);
    case Push(w) => PushKeepsPlaced(c, s, w);
    case Collect => CollectKeepsPlaced(c, s);
    case _ => QuietKeepsPlaced(c, s, step);
  }

  ghost predicate SameSubmitted(s: State, t: State) {
    && |s.places| <= |t.places|
    && (forall i | 0 <= i < |s.places| :: WasSubmitted(t, i) <==> WasSubmitted(s, i))
    && (forall i | |s.places| <= i < |t.places| :: !WasSubmitted(t, i))
  }

  lemma HandKeepsSubmitted(c: Config, s: State, w: nat)
    requires ProducerPlaced(c, s) && WorkersPlaced(c, s) && Enabled(c, s, Hand(w))
    ensures SameSubmitted(s, Apply(c, s, Hand(w)))
  {
  }

  lemma PushKeepsSubmitted(c: Config, s: State, w: nat)
    requires WorkersPlaced(c, s) && Enabled(c, s, Push(w))
    ensures SameSubmitted(s, Apply(c, s, Push(w)))
  {
  }

  lemma ExitKeepsSubmitted(c: Config, s: State, w: nat)
    requires WorkersPlaced(c, s) && Enabled(c, s, Exit(w))
    ensures SameSubmitted(s, Apply(c, s, Exit(w)))
  {
  }

  lemma CollectKeepsSubmitted(c: Config, s: State)
    requires ResultsPlaced(c, s) && Enabled(c, s, Collect)
    ensures SameSubmitted(s, Apply(c, s, Collect))
  {
  }

  /** A step other than Submit moves bodies without changing which have been submitted. */
  lemma SubmittedKept(c: Config, s: State, step: Step)
    requires ProducerPlaced(c, s) && WorkersPlaced(c, s) && ResultsPlaced(c, s) && Enabled(c, s, step) && !step.Submit?
    ensures SameSubmitted(s, Apply(c, s, step))
  {
    match step
    case Hand(w) => HandKeepsSubmitted(c, s, w);
    case Push(w) => PushKeepsSubmitted(c, s, w);
    case Exit(w) => ExitKeepsSubmitted(c, s, w);
    case Collect => CollectKeepsSubmitted(c, s);
    case _ =>
  }

  lemma StepKeepsCalls(c: Config, s: State, step: Step)
    requires Inv(c, s) && Enabled(c, s, step)
    ensures CallsOnce(c, Apply(c, s, step))
  {
    if step.Submit? {
      SubmitKeepsCalls(c, s, step.w);
    } else {
      SubmittedKept(c, s, step);
    }
  }

  lemma SubmitKeepsCalls(c: Config, s: State, w: nat)
    requires Placed(c, s) && CallsOnce(c, s) && Enabled(c, s, Submit(w))
    ensures CallsOnce(c, Apply(c, s, Submit(w)))
  {
    var t := Apply(c, s, Submit(w));
    var mine := s.workers[w].call;
    assert multiset(t.calls) == multiset(s.calls) + multiset{mine};
    assert mine !in s.calls;
    assert multiset(s.calls)[mine] == 0;
    forall i | 0 <= i < |s.places| && i != mine.index ensures WasSubmitted(t, i) <==> WasSubmitted(s, i) {
    }
  }

  lemma StepKeepsInv(c: Config, s: State, step: Step)
    requires Inv(c, s) && Enabled(c, s, step)
    ensures Inv(c, Apply(c, s, step))
  {
    StepKeepsShape(c, s, step);
    StepKeepsPlaced(c, s, step);
    StepKeepsCalls(c, s, step);
  }

  lemma {:induction false} RunKeepsInv(c: Config, s: State, steps: seq<Step>)
    requires Inv(c, s) && CanRun(c, s, steps)
    ensures Inv(c, Run(c, s, steps))
    decreases steps
  {
    if steps != [] {
      StepKeepsInv(c, s, steps[0]);
      RunKeepsInv(c, Apply(c, s, steps[0]), steps[1..]);
    }
  }

  // ---------------------------------------------------------------------------------------
  // What every schedule delivers

  /** The call is over: the stream, or the decode error of the only fixture, is returned. */
  predicate Done(s: State) {
    s.producer.Finished?
  }

  /** When a schedule finishes, nothing is left in transit. */
  lemma FinishedIsCollected(c: Config, s: State)
    requires Inv(c, s) && Done(s)
    ensures forall i | 0 <= i < |s.places| :: s.places[i].NoBody? || s.places[i].Collected?
  {
    forall i | 0 <= i < |s.places| ensures s.places[i].NoBody? || s.places[i].Collected? {
      assert !s.places[i].AtProducer?;
      assert !s.places[i].AtWorker?;
      assert !s.places[i].Queued?;
    }
  }

  /** What a sequential program would return. */
  ghost predicate Sequential(c: Config, s: State) {
    var n := |s.lines|;
    && !s.panicked
    && n == (if s.aborted then |c.ops| - 1 else |c.ops|)
    && (forall i | 0 <= i < n :: s.lines[i] == c.FinalLine(i))
    && (forall i | 0 <= i < n && c.ops[i].Yield? :: multiset(s.calls)[Call(i, c.ops[i].body)] == 1)
    && (forall call | call in s.calls :: call.index < n && IsCall(c, call))
    && s.submitted == CountYields(c.ops)
    && (s.firstError.None? <==> forall i | 0 <= i < n && c.ops[i].Yield? :: c.answer(i).error.None?)
    && (s.aborted <==> exists i :: c.Aborts(i))
  }

  /**
   Every finished schedule returns the sequential result: one line per operation in decode order,
   each body submitted exactly once, an error reported exactly when some submission had one, and
   no index ever out of range.
   */
  lemma FinishedIsSequential(c: Config, steps: seq<Step>)
    requires CanRun(c, Init(c), steps) && Done(Run(c, Init(c), steps))
    ensures Sequential(c, Run(c, Init(c), steps))
  {
    InitInv(c);
    RunKeepsInv(c, Init(c), steps);
    var s := Run(c, Init(c), steps);
    FinishedIsCollected(c, s);
    if s.aborted { AbortIsLast(c, s.next - 1); }
    assert c.ops[..|c.ops|] == c.ops;
    if i :| c.Aborts(i) {
      AbortIsLast(c, i);
      NoAbortedLine(c, steps);
    }
  }

  /**
   The same by fixture.  The call is aborted exactly when there is one fixture and it fails to decode.  Otherwise line
   Offset(k) + j holds the server's answer to body j of fixture k, and a fixture that fails to decode has its own line
   after its bodies.
   */
  ghost predicate ByFixture(c: Config, s: State, k: nat)
    requires k < |c.fixtures|
  {
    var f, at := c.fixtures[k], Offset(c.fixtures, k);
    && (s.aborted <==> |c.fixtures| == 1 && c.fixtures[0].broken)
    && (!s.aborted ==> |s.lines| == Offset(c.fixtures, |c.fixtures|))
    && at + |f.bodies| <= |s.lines|
    && (forall j | 0 <= j < |f.bodies| :: BodyAnswered(c, s, at + j, f.bodies[j]))
    && (f.broken && !s.aborted ==> at + |f.bodies| < |s.lines| && s.lines[at + |f.bodies|] == DecodeFailed)
  }

  /** Line i holds the server's answer to this body, which was submitted once. */
  ghost predicate BodyAnswered(c: Config, s: State, i: nat, body: Body) {
    i < |s.lines| && s.lines[i] == Answered(c.answer(i).line) && multiset(s.calls)[Call(i, body)] == 1
  }

  lemma FinishedByFixture(c: Config, steps: seq<Step>, k: nat)
    requires CanRun(c, Init(c), steps) && Done(Run(c, Init(c), steps)) && k < |c.fixtures|
    ensures ByFixture(c, Run(c, Init(c), steps), k)
  {
    FinishedIsSequential(c, steps);
    SequentialByFixture(c, Run(c, Init(c), steps), k);
  }

  lemma SequentialByFixture(c: Config, s: State, k: nat)
    requires Sequential(c, s) && k < |c.fixtures|
    ensures ByFixture(c, s, k)
  {
    AbortedIff(c);
    FixtureFits(c, s, k);
    forall j | 0 <= j < |c.fixtures[k].bodies|
      ensures BodyAnswered(c, s, Offset(c.fixtures, k) + j, c.fixtures[k].bodies[j])
    {
      BodyLine(c, s, k, j);
    }
  }

  lemma FixtureFits(c: Config, s: State, k: nat)
    requires Sequential(c, s) && k < |c.fixtures| && (s.aborted <==> |c.fixtures| == 1 && c.fixtures[0].broken)
    ensures var f, at := c.fixtures[k], Offset(c.fixtures, k);
            && at + |f.bodies| <= |s.lines|
            && (f.broken && !s.aborted ==> at + |f.bodies| < |s.lines| && s.lines[at + |f.bodies|] == DecodeFailed)
            && (!s.aborted ==> |s.lines| == Offset(c.fixtures, |c.fixtures|))
  {
    OpsLength(c.fixtures);
    OffsetGrows(c.fixtures, k, |c.fixtures|);
    if c.fixtures[k].broken {
      OpsMeaning(c.fixtures, k, |c.fixtures[k].bodies|);
    }
  }

  lemma BodyLine(c: Config, s: State, k: nat, j: nat)
    requires Sequential(c, s) && k < |c.fixtures| && j < |c.fixtures[k].bodies|
    requires Offset(c.fixtures, k) + |c.fixtures[k].bodies| <= |s.lines|
    ensures BodyAnswered(c, s, Offset(c.fixtures, k) + j, c.fixtures[k].bodies[j])
  {
    OpsMeaning(c.fixtures, k, j);
    LineAt(c, s, Offset(c.fixtures, k) + j, c.fixtures[k].bodies[j]);
  }

  lemma LineAt(c: Config, s: State, i: nat, body: Body)
    requires Sequential(c, s) && i < |s.lines| && i < |c.ops| && c.ops[i] == Yield(body)
    ensures BodyAnswered(c, s, i, body)
  {
  }

  lemma AbortedIff(c: Config)
    requires c.fixtures != []
    ensures (exists i :: c.Aborts(i)) <==> |c.fixtures| == 1 && c.fixtures[0].broken
  {
    if |c.fixtures| == 1 {
      var f := c.fixtures[0];
      assert c.fixtures[1..] == [] && Ops([]) == [];
      assert c.ops == OpsOf(f) + [];
      if f.broken {
        assert c.Aborts(|f.bodies|);
      }
    }
  }

  /** An aborting operation never becomes a line. */
  ghost predicate AbortsHidden(c: Config, s: State) {
    forall i | 0 <= i < |s.lines| :: !c.Aborts(i)
  }

  lemma {:induction false} RunKeepsAbortsHidden(c: Config, s: State, steps: seq<Step>)
    requires Inv(c, s) && AbortsHidden(c, s) && CanRun(c, s, steps)
    ensures AbortsHidden(c, Run(c, s, steps))
    decreases steps
  {
    if steps != [] {
      StepKeepsInv(c, s, steps[0]);
      RunKeepsAbortsHidden(c, Apply(c, s, steps[0]), steps[1..]);
    }
  }

  lemma NoAbortedLine(c: Config, steps: seq<Step>)
    requires CanRun(c, Init(c), steps)
    ensures AbortsHidden(c, Run(c, Init(c), steps))
  {
    InitInv(c);
    RunKeepsAbortsHidden(c, Init(c), steps);
  }

  /** The error of the first answer collected that has one. */
  ghost predicate IsFirstError(collected: seq<Task>, error: Option<Error>) {
    if error.None? then forall k | 0 <= k < |collected| :: collected[k].answer.error.None?
    else exists k | 0 <= k < |collected| ::
           collected[k].answer.error == error && forall j | 0 <= j < k :: collected[j].answer.error.None?
  }

  lemma FirstErrorGrows(collected: seq<Task>, error: Option<Error>, task: Task)
    requires IsFirstError(collected, error)
    ensures IsFirstError(
              collected + [task], if error.None? && task.answer.error.Some? then task.answer.error else error)
  {
    var more := collected + [task];
    if error.Some? {
      var k :| 0 <= k < |collected| && collected[k].answer.error == error
               && forall j | 0 <= j < k :: collected[j].answer.error.None?;
      assert more[k].answer.error == error && forall j | 0 <= j < k :: more[j] == collected[j];
    } else if task.answer.error.Some? {
      assert more[|collected|] == task;
    }
  }

  /** What is reported as the first submit error is the error of the first answer collected that has one. */
  lemma {:induction false} FirstErrorIsFirst(c: Config, s: State, steps: seq<Step>)
    requires IsFirstError(s.collected, s.firstError) && CanRun(c, s, steps)
    ensures IsFirstError(Run(c, s, steps).collected, Run(c, s, steps).firstError)
    decreases steps
  {
    if steps != [] {
      if steps[0].Collect? {
        FirstErrorGrows(s.collected, s.firstError, s.results[0]);
      }
      FirstErrorIsFirst(c, Apply(c, s, steps[0]), steps[1..]);
    }
  }

  // ---------------------------------------------------------------------------------------
  // No schedule gets stuck, and every schedule ends

  /** A worker that has not exited can move, or the collector can make room for it. */
  lemma WorkerCanMove(c: Config, s: State, w: nat) returns (step: Step)
    requires Inv(c, s) && c.jobs > 0 && w < |s.workers| && !s.workers[w].Exited? && !ResultsClosed(s)
    requires s.workers[w].Waiting? ==> WorkClosed(s) || s.producer.Handing?
    ensures Enabled(c, s, step)
  {
    match s.workers[w]
    case Waiting => step := if s.producer.Handing? then Hand(w) else Exit(w);
    case Busy(_) => step := Submit(w);
    case Holding(_) => step := if |s.results| < c.jobs then Push(w) else Collect;
  }

  /** Deadlock freedom: in every reachable unfinished state some step is enabled. */
  lemma NeverStuck(c: Config, s: State) returns (step: Step)
    requires Inv(c, s) && c.jobs > 0 && !Done(s)
    ensures Enabled(c, s, step)
  {
    match s.producer
    case Ready => step := if s.aborted || s.next >= |c.ops| then CloseWork else Produce;
    case Handing(_) => step := WorkerCanMove(c, s, 0);
    case Draining =>
      if w :| 0 <= w < |s.workers| && !s.workers[w].Exited? {
        step := WorkerCanMove(c, s, w);
      } else {
        step := CloseResults;
      }
    case Collecting =>
      step := if s.collecting then if s.results == [] then StopCollecting else Collect else Finish;
  }

  function Weight(w: Worker): nat {
    match w case Waiting => 1 case Busy(_) => 7 case Holding(_) => 5 case Exited => 0
  }

  function TotalWeight(ws: seq<Worker>): nat {
    if ws == [] then 0 else Weight(ws[0]) + TotalWeight(ws[1..])
  }

  lemma {:induction false} WeightUpdate(ws: seq<Worker>, i: nat, w: Worker)
    requires i < |ws|
    ensures TotalWeight(ws[i := w]) == TotalWeight(ws) - Weight(ws[i]) + Weight(w)
    decreases ws
  {
    if i == 0 {
      assert ws[i := w][1..] == ws[1..];
    } else {
      assert ws[i := w][1..] == ws[1..][i - 1 := w];
      WeightUpdate(ws[1..], i - 1, w);
    }
  }

  function ProducerWeight(p: Producer): nat {
    match p case Ready => 4 case Handing(_) => 12 case Draining => 3 case Collecting => 2 case Finished => 0
  }

  /** How many steps are left at most. */
  function Remaining(c: Config, s: State): int {
    10 * (|c.ops| - s.next)
    + ProducerWeight(s.producer)
    + TotalWeight(s.workers) + 2 * |s.results| + if s.collecting then 1 else 0
  }

  lemma StepDecreases(c: Config, s: State, step: Step)
    requires s.next <= |c.ops| && Enabled(c, s, step)
    ensures 0 <= Remaining(c, Apply(c, s, step)) < Remaining(c, s)
  {
    match step
    case Hand(w) => WeightUpdate(s.workers, w, Busy(s.producer.call));
    case Submit(w) =>
      var i := s.workers[w].call.index;
      WeightUpdate(s.workers, w, Holding(Task(i, c.answer(i))));
    case Push(w) => WeightUpdate(s.workers, w, Waiting);
    case Exit(w) => WeightUpdate(s.workers, w, Exited);
    case _ =>
  }

  /** So no schedule is longer than the initial bound: every schedule that keeps moving finishes. */
  lemma {:induction false} SchedulesAreFinite(c: Config, s: State, steps: seq<Step>)
    requires Inv(c, s) && CanRun(c, s, steps)
    ensures |steps| + Remaining(c, Run(c, s, steps)) <= Remaining(c, s)
    ensures 0 <= Remaining(c, s)
    decreases steps
  {
    if steps != [] {
      StepKeepsInv(c, s, steps[0]);
      StepDecreases(c, s, steps[0]);
      SchedulesAreFinite(c, Apply(c, s, steps[0]), steps[1..]);
    }
  }
}
