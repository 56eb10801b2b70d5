/**
 Installing the unique index on submission keys (prepareSubmissionIndex, internal/db/migrate.go): a guard
 index is built, a mismatched canonical index dropped and the guard renamed, each statement committing on
 its own.  The migrator may be lost between any two statements or inside one, an interrupted CREATE or
 DROP ... CONCURRENTLY leaves an invalid index behind, and rows are inserted all the while.  An advisory lock
 keeps migrators one at a time.
 */
module IndexSwap {
  import opened Options

  type Key = int

  /** What inspectSubmissionIndex reports. */
  datatype Index = Missing | Correct | Mismatched

  /** The key column's presence, the two index names and the submission keys of the rows. */
  datatype Db = Db(column: bool, canonical: Index, guard: Index, keys: seq<Option<Key>>)

  /** A correct unique index exists under one of the names. */
  predicate Guarded(d: Db) {
    d.canonical == Correct || d.guard == Correct
  }

  predicate NoDuplicates(keys: seq<Option<Key>>) {
    forall i, j | 0 <= i < j < |keys| && keys[i].Some? :: keys[i] != keys[j]
  }

  predicate Consistent(d: Db) {
    Guarded(d) ==> NoDuplicates(d.keys)
  }

  // ---------------------------------------------------------------------------------------
  // What each statement may leave behind

  /** An insert goes through unless a correct unique index refuses it. */
  predicate MayInsert(d: Db, key: Option<Key>) {
    Guarded(d) && key.Some? ==> key !in d.keys
  }

  /** CREATE UNIQUE INDEX CONCURRENTLY: complete only without duplicates; otherwise nothing or an invalid index. */
  predicate MayCreate(d: Db, left: Index) {
    if d.guard != Missing then left == d.guard else left == Correct ==> NoDuplicates(d.keys)
  }

  /** DROP INDEX CONCURRENTLY: complete, untouched, or left invalid. */
  predicate MayDrop(before: Index, left: Index) {
    left == Missing || left == Mismatched || left == before
  }

  // ---------------------------------------------------------------------------------------
  // The migrator

  datatype Pc =
    | Idle
    | Decide(canonical: Index, guard: Index)
    | DropGuard
    | CreateGuard(canonical: Index)
    | Reinspect(canonical: Index)
    | DropCanonical
    | Rename
    | Returned(ok: bool)

  datatype State = State(db: Db, pc: Pc)

  datatype Step =
    | Insert(key: Option<Key>)
    | Begin
    | Next
    | Exec(left: Index)
    | Lose(left: Index)
    | Finish

  /** The statement at hand may leave its index so; elsewhere there is no statement to interrupt. */
  predicate MayLeave(s: State, left: Index) {
    match s.pc
    case DropGuard => MayDrop(s.db.guard, left)
    case CreateGuard(_) => MayCreate(s.db, left)
    case DropCanonical => MayDrop(s.db.canonical, left)
    case Rename => left == s.db.guard || (left == Missing && s.db.canonical == Missing)
    case _ => false
  }

  function Leave(s: State, left: Index): Db {
    match s.pc
    case DropGuard => s.db.(guard := left)
    case CreateGuard(_) => s.db.(guard := left)
    case DropCanonical => s.db.(canonical := left)
    case Rename => if left == Missing then s.db.(canonical := s.db.guard, guard := Missing) else s.db
    case _ => s.db
  }

  predicate Enabled(s: State, step: Step) {
    match step
    case Insert(key) => MayInsert(s.db, key)
    case Begin => s.pc.Idle?
    case Next => s.pc.Decide? || s.pc.Reinspect?
    case Exec(left) => MayLeave(s, left)
    case Lose(left) => (s.pc.DropGuard? || s.pc.CreateGuard? || s.pc.DropCanonical? || s.pc.Rename?) ==>
        MayLeave(s, left)
    case Finish => s.pc.Returned?
  }

  /** The branches taken on the inspected states. */
  function Decision(canonical: Index, guard: Index): Pc {
    if canonical == Correct then
      match guard
      case Missing => Returned(true)
      case Correct => DropGuard
      case Mismatched => Returned(false)
    else if guard == Mismatched then Returned(false)
    else if guard == Missing then CreateGuard(canonical)
    else AfterGuard(canonical)
  }

  function AfterGuard(canonical: Index): Pc {
    if canonical == Mismatched then DropCanonical else Rename
  }

  /** Where a completed or failed statement leads. */
  function AfterExec(pc: Pc, left: Index): Pc {
    match pc
    case DropGuard => Returned(left == Missing)
    case CreateGuard(canonical) => if left == Correct then Reinspect(canonical) else Returned(false)
    case DropCanonical => if left == Missing then Rename else Returned(false)
    case Rename => Returned(left == Missing)
    case _ => pc
  }

  function Apply(s: State, step: Step): State
    requires Enabled(s, step)
  {
    match step
    case Insert(key) => s.(db := s.db.(keys := s.db.keys + [key]))
    case Begin => s.(pc := if s.db.column then Decide(s.db.canonical, s.db.guard) else Returned(true))
    case Next =>
      if s.pc.Decide? then s.(pc := Decision(s.pc.canonical, s.pc.guard))
      else s.(pc := if s.db.guard == Correct then AfterGuard(s.pc.canonical) else Returned(false))
    case Exec(left) => State(Leave(s, left), AfterExec(s.pc, left))
    case Lose(left) => State(Leave(s, left), Idle)
    case Finish => s.(pc := Idle)
  }

  predicate CanRun(s: State, steps: seq<Step>)
    decreases steps
  {
    steps == [] || (Enabled(s, steps[0]) && CanRun(Apply(s, steps[0]), steps[1..]))
  }

  function Run(s: State, steps: seq<Step>): State
    requires CanRun(s, steps)
    decreases steps
  {
    if steps == [] then s else Run(Apply(s, steps[0]), steps[1..])
  }

  // ---------------------------------------------------------------------------------------
  // Every run

  /** What the migrator remembers is still so, and each statement stands where it cannot hurt. */
  predicate Inv(s: State) {
    && Consistent(s.db)
    && (!s.pc.Idle? && !s.pc.Returned? ==> s.db.column)
    && match s.pc
       case Decide(canonical, guard) => canonical == s.db.canonical && guard == s.db.guard
       case DropGuard => s.db.canonical == Correct && s.db.guard == Correct
       case CreateGuard(canonical) => canonical == s.db.canonical != Correct && s.db.guard == Missing
       case Reinspect(canonical) => canonical == s.db.canonical != Correct
       case DropCanonical => s.db.canonical == Mismatched && s.db.guard == Correct
       case Rename => s.db.canonical == Missing && s.db.guard == Correct
       case Returned(ok) => ok && s.db.column ==> s.db.canonical == Correct && s.db.guard == Missing
       case Idle => true
  }

  lemma InsertKeepsConsistent(d: Db, key: Option<Key>)
    requires Consistent(d) && MayInsert(d, key)
    ensures Consistent(d.(keys := d.keys + [key]))
  {
    if Guarded(d) {
      var keys := d.keys + [key];
      forall i, j | 0 <= i < j < |keys| && keys[i].Some? ensures keys[i] != keys[j] {
        if j == |d.keys| {
          assert keys[i] == d.keys[i] && keys[i] in d.keys;
        }
      }
    }
  }

  lemma StepIsSafe(s: State, step: Step)
    requires Inv(s) && Enabled(s, step)
    ensures Inv(Apply(s, step))
    ensures Guarded(s.db) ==> Guarded(Apply(s, step).db)
  {
    if step.Insert? {
      InsertKeepsConsistent(s.db, step.key);
    }
  }

  /** Once a correct unique index exists under either name, one exists in every later state. */
  lemma {:induction false} GuardedForever(s: State, steps: seq<Step>)
    requires Inv(s) && CanRun(s, steps)
    ensures Inv(Run(s, steps))
    ensures Guarded(s.db) ==> Guarded(Run(s, steps).db)
    decreases steps
  {
    if steps != [] {
      StepIsSafe(s, steps[0]);
      GuardedForever(Apply(s, steps[0]), steps[1..]);
    }
  }

  /** And from then on no two rows share a submission key. */
  lemma NoDuplicatesEver(s: State, steps: seq<Step>)
    requires s.pc.Idle? && Consistent(s.db) && Guarded(s.db) && CanRun(s, steps)
    ensures NoDuplicates(Run(s, steps).db.keys)
  {
    GuardedForever(s, steps);
  }

  /** A run that returns success with the column present ends with the canonical index correct and no guard. */
  lemma SuccessInstallsIndex(s: State, steps: seq<Step>)
    requires s.pc.Idle? && Consistent(s.db) && CanRun(s, steps) && Run(s, steps).pc == Returned(true)
    ensures var d := Run(s, steps).db; d.column ==> d.canonical == Correct && d.guard == Missing && NoDuplicates(d.keys)
  {
    GuardedForever(s, steps);
  }

  /**
   A guard left invalid by an interruption blocks every later run, whatever else happens, until someone removes
   it.
   */
  lemma {:induction false} InvalidGuardBlocks(s: State, steps: seq<Step>)
    requires Inv(s) && s.db.column && s.db.guard == Mismatched && CanRun(s, steps)
    requires s.pc.Idle? || s.pc == Returned(false) || (s.pc.Decide? && s.pc.guard == Mismatched)
    ensures var t := Run(s, steps); t.db.guard == Mismatched && t.pc != Returned(true)
    decreases steps
  {
    if steps != [] {
      StepIsSafe(s, steps[0]);
      InvalidGuardBlocks(Apply(s, steps[0]), steps[1..]);
    }
  }

  /** One interrupted CREATE is enough: from any database without the index, no run succeeds afterwards. */
  lemma InterruptedCreateBlocks(keys: seq<Option<Key>>, more: seq<Step>)
    requires CanRun(State(Db(true, Missing, Mismatched, keys), Idle), more)
    ensures var s := State(Db(true, Missing, Missing, keys), Idle);
            var steps := [Begin, Next, Lose(Mismatched)] + more;
            CanRun(s, steps) && Run(s, steps).pc != Returned(true)
  {
    var s0 := State(Db(true, Missing, Missing, keys), Idle);
    var s1 := Apply(s0, Begin);
    var s2 := Apply(s1, Next);
    var s3 := Apply(s2, Lose(Mismatched));
    InvalidGuardBlocks(s3, more);
    var steps := [Begin, Next, Lose(Mismatched)] + more;
    assert steps[1..][1..][1..] == more;
    assert CanRun(s2, steps[1..][1..]) && Run(s2, steps[1..][1..]) == Run(s3, more);
    assert CanRun(s1, steps[1..]) && Run(s1, steps[1..]) == Run(s3, more);
  }

  // ---------------------------------------------------------------------------------------
  // The procedure

  /** Running these steps leads from one state to the other. */
  ghost predicate Reaches(from: State, steps: seq<Step>, to: State) {
    CanRun(from, steps) && Run(from, steps) == to
  }

  lemma {:induction false} ReachesNext(from: State, steps: seq<Step>, to: State, step: Step)
    requires Reaches(from, steps, to) && Enabled(to, step)
    ensures Reaches(from, steps + [step], Apply(to, step))
    decreases steps
  {
    var more := steps + [step];
    if steps == [] {
      assert more[1..] == [] && more == [step];
    } else {
      assert more[1..] == steps[1..] + [step];
      ReachesNext(Apply(from, steps[0]), steps[1..], to, step);
    }
  }

  lemma OneMore(from: State, steps: seq<Step>, to: State, step: Step) returns (more: seq<Step>)
    requires Reaches(from, steps, to) && Enabled(to, step)
    ensures Reaches(from, more, Apply(to, step))
  {
    more := steps + [step];
    ReachesNext(from, steps, to, step);
  }

  /** The statement at hand was executed or cut short, leaving its index so. */
  lemma Executed(from: State, steps: seq<Step>, at: State, left: Index, lost: bool) returns (more: seq<Step>)
    requires Reaches(from, steps, at) && MayLeave(at, left)
    ensures Reaches(from, more, State(Leave(at, left), if lost then Idle else AfterExec(at.pc, left)))
  {
    more := OneMore(from, steps, at, if lost then Lose(left) else Exec(left));
  }

  /** What an undisturbed run needs to find: no mismatched guard, and a correct index or no duplicates. */
  predicate MaySucceed(d: Db) {
    d.guard != Mismatched && (Guarded(d) || NoDuplicates(d.keys))
  }

  /** Rows inserted before the next statement, and whether the statement is cut short and what it then leaves. */
  datatype Event = Event(inserts: seq<Option<Key>>, lost: bool, left: Index)

  class Database {
    const column: bool
    var canonical: Index
    var guard: Index
    var keys: seq<Option<Key>>

    ghost function View(): Db
      reads this
    {
      Db(column, canonical, guard, keys)
    }

    constructor (column: bool, canonical: Index, guard: Index, keys: seq<Option<Key>>)
      ensures View() == Db(column, canonical, guard, keys)
    {
      this.column, this.canonical, this.guard, this.keys := column, canonical, guard, keys;
    }

    /** Rows other sessions insert; a correct unique index refuses duplicates. */
    method Inserts(inserted: seq<Option<Key>>, ghost from: State, ghost trace: seq<Step>, ghost pc: Pc)
      returns (ghost longer: seq<Step>)
      requires Consistent(View()) && Reaches(from, trace, State(View(), pc))
      modifies this`keys
      ensures Consistent(View()) && Reaches(from, longer, State(View(), pc))
      ensures inserted == [] ==> keys == old(keys)
    {
      longer := trace;
      for i := 0 to |inserted|
        invariant Consistent(View()) && Reaches(from, longer, State(View(), pc))
        invariant i == 0 ==> keys == old(keys)
      {
        var key := inserted[i];
        if !((canonical == Correct || guard == Correct) && key.Some? && key in keys) {
          InsertKeepsConsistent(View(), key);
          longer := OneMore(from, longer, State(View(), pc), Insert(key));
          keys := keys + [key];
        }
      }
    }

    /** CREATE UNIQUE INDEX CONCURRENTLY on the guard's name. */
    method CreateGuardIndex(e: Event) returns (ok: bool)
      requires Consistent(View()) && guard == Missing
      modifies this`guard
      ensures MayCreate(old(View()), guard) && Consistent(View())
      ensures ok ==> guard == Correct
      ensures !e.lost ==> ok == NoDuplicates(keys)
      ensures e.lost ==> !ok
    {
      if e.lost {
        guard := if e.left == Correct && !NoDuplicates(keys) then Mismatched else e.left;
        return false;
      }
      guard := if NoDuplicates(keys) then Correct else Mismatched;
      ok := guard == Correct;
    }

    method DropGuardIndex(e: Event) returns (ok: bool)
      requires Consistent(View()) && canonical == Correct
      modifies this`guard
      ensures MayDrop(old(guard), guard) && Consistent(View())
      ensures ok ==> guard == Missing
      ensures ok <==> !e.lost
    {
      guard := if !e.lost then Missing else if e.left == Correct then guard else e.left;
      ok := !e.lost;
    }

    method DropCanonicalIndex(e: Event) returns (ok: bool)
      requires Consistent(View()) && canonical == Mismatched
      modifies this`canonical
      ensures MayDrop(old(canonical), canonical) && Consistent(View())
      ensures ok ==> canonical == Missing
      ensures ok <==> !e.lost
    {
      canonical := if !e.lost || e.left == Missing then Missing else canonical;
      ok := !e.lost;
    }

    /** ALTER INDEX ... RENAME is atomic; it may have happened when the connection is lost. */
    method RenameGuard(e: Event) returns (ok: bool)
      requires Consistent(View()) && canonical == Missing && guard == Correct
      modifies this`canonical, this`guard
      ensures Consistent(View()) && Guarded(View())
      ensures View() == old(View()) || View() == old(View()).(canonical := old(guard), guard := Missing)
      ensures ok ==> canonical == Correct && guard == Missing
      ensures ok <==> !e.lost
    {
      if !e.lost || e.left == Missing {
        canonical, guard := guard, Missing;
      }
      ok := !e.lost;
    }

    /**
     prepareSubmissionIndex: every execution is a run of the migrator's steps.  However it is interrupted, a
     correct index that was there stays under one name; without interruption and inserts it succeeds exactly
     under a condition on what it found.
     */
    method PrepareSubmissionIndex(plan: nat -> Event) returns (ok: bool, lost: bool, ghost trace: seq<Step>)
      requires Consistent(View())
      modifies this`canonical, this`guard, this`keys
      ensures Reaches(State(old(View()), Idle), trace, State(View(), if lost then Idle else Returned(ok)))
      ensures lost ==> !ok && exists i: nat :: plan(i).lost
      ensures Consistent(View())
      ensures old(Guarded(View())) ==> Guarded(View())
      ensures ok && column ==> canonical == Correct && guard == Missing && NoDuplicates(keys)
      ensures !column ==> ok && canonical == old(canonical) && guard == old(guard)
      ensures (forall i: nat :: !plan(i).lost && plan(i).inserts == []) ==>
                (ok <==> !column || MaySucceed(old(View())))
    {
      ghost var from := State(View(), Idle);
      lost := false;
      trace := OneMore(from, [], from, Begin);
      if !column {
        return true, false, trace;
      }
      var c, g := canonical, guard;
      trace := OneMore(from, trace, State(View(), Decide(c, g)), Next);
      trace := Inserts(plan(0).inserts, from, trace, Decision(c, g));
      if c == Correct {
        match g {
          case Missing => ok := true;
          case Mismatched => ok := false;
          case Correct =>
            lost := plan(0).lost;
            ghost var before := State(View(), DropGuard);
            ok := DropGuardIndex(plan(0));
            trace := Executed(from, trace, before, guard, lost);
        }
      } else if g == Mismatched {
        ok := false;
      } else if g == Missing {
        lost := plan(0).lost;
        ghost var before := State(View(), CreateGuard(c));
        ok := CreateGuardIndex(plan(0));
        trace := Executed(from, trace, before, guard, lost);
        if ok {
          trace := Inserts(plan(1).inserts, from, trace, Reinspect(c));
          trace := OneMore(from, trace, State(View(), Reinspect(c)), Next);
          ok, lost, trace := Install(c, plan, from, trace);
        }
      } else {
        ok, lost, trace := Install(c, plan, from, trace);
      }
      GuardedForever(from, trace);
    }

    /** With the guard in place: drop a mismatched canonical index, then rename. */
    method Install(c: Index, plan: nat -> Event, ghost from: State, ghost trace: seq<Step>)
      returns (ok: bool, lost: bool, ghost longer: seq<Step>)
      requires Consistent(View()) && guard == Correct && c == canonical != Correct
      requires Reaches(from, trace, State(View(), AfterGuard(c)))
      modifies this`canonical, this`guard, this`keys
      ensures Reaches(from, longer, State(View(), if lost then Idle else Returned(ok)))
      ensures lost ==> !ok && exists i: nat :: plan(i).lost
      ensures Consistent(View())
      ensures (forall i: nat :: !plan(i).lost && plan(i).inserts == []) ==> ok
    {
      lost, longer := false, trace;
      if c == Mismatched {
        lost := plan(2).lost;
        ghost var before := State(View(), DropCanonical);
        ok := DropCanonicalIndex(plan(2));
        longer := Executed(from, longer, before, canonical, lost);
        if !ok {
          return;
        }
        longer := Inserts(plan(2).inserts, from, longer, Rename);
      }
      lost := plan(3).lost;
      ghost var before := State(View(), Rename);
      ok := RenameGuard(plan(3));
      longer := Executed(from, longer, before, guard, lost);
    }
  }
}
