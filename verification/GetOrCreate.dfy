/**
 getOrCreate (internal/db/store.go): select by natural key; if absent insert with a fresh id; if
 the insert lost the ON CONFLICT DO NOTHING race, select again.  The natural key has a unique
 index and rows are never deleted.
 */
module GetOrCreate {
  import opened Options

  type Id = int
  type Key = int
  type Rows = map<Id, Key>

  predicate UniqueKeys(rows: Rows) {
    forall a, b | a in rows && b in rows && rows[a] == rows[b] :: a == b
  }

  predicate Has(rows: Rows, key: Key) {
    exists a | a in rows :: rows[a] == key
  }

  // ---------------------------------------------------------------------------------------
  // Any number of callers, any interleaving

  datatype Phase =
    | Selecting(key: Key) | Inserting(key: Key) | Reselecting(key: Key)
    | Got(key: Key, id: Id) | Missing(key: Key)

  datatype State = State(rows: Rows, callers: seq<Phase>)

  datatype Step = SelectHit(p: nat, id: Id) | SelectMiss(p: nat) | InsertRow(p: nat, id: Id)

  predicate IsSelect(ph: Phase) {
    ph.Selecting? || ph.Reselecting?
  }

  predicate Enabled(s: State, step: Step) {
    && step.p < |s.callers|
    && match step
       case SelectHit(p, id) => IsSelect(s.callers[p]) && id in s.rows && s.rows[id] == s.callers[p].key
       case SelectMiss(p) => IsSelect(s.callers[p]) && !Has(s.rows, s.callers[p].key)
       case InsertRow(p, id) => s.callers[p].Inserting? && id !in s.rows
  }

  function Apply(s: State, step: Step): State
    requires Enabled(s, step)
  {
    var key := s.callers[step.p].key;
    match step
    case SelectHit(p, id) => s.(callers := s.callers[p := Got(key, id)])
    case SelectMiss(p) =>
      s.(callers := s.callers[p := if s.callers[p].Selecting? then Inserting(key) else Missing(key)])
    case InsertRow(p, id) =>
      if Has(s.rows, key) then s.(callers := s.callers[p := Reselecting(key)])
      else State(s.rows[id := key], s.callers[p := Got(key, id)])
  }

  predicate CanRun(s: State, steps: seq<Step>)
    decreases steps
  {
    steps == [] || (Enabled(s, steps[0]) && CanRun(Apply(s, steps[0]), steps[1..]))
  }

  function Run(s: State, steps: seq<Step>): State
    requires CanRun(s, steps)
    decreases steps
  {
    if steps == [] then s else Run(Apply(s, steps[0]), steps[1..])
  }

  predicate Inv(s: State) {
    && UniqueKeys(s.rows)
    && (forall p | 0 <= p < |s.callers| && s.callers[p].Got? ::
          s.callers[p].id in s.rows && s.rows[s.callers[p].id] == s.callers[p].key)
    && (forall p | 0 <= p < |s.callers| && s.callers[p].Reselecting? :: Has(s.rows, s.callers[p].key))
    && (forall p | 0 <= p < |s.callers| :: !s.callers[p].Missing?)
  }

  lemma StepKeepsInv(s: State, step: Step)
    requires Inv(s) && Enabled(s, step)
    ensures Inv(Apply(s, step))
  {
    var t := Apply(s, step);
    forall p | 0 <= p < |t.callers| && t.callers[p].Reselecting? ensures Has(t.rows, t.callers[p].key) {
      if p != step.p { assert s.callers[p].Reselecting?; }
      var a :| a in s.rows && s.rows[a] == t.callers[p].key;
      assert a in t.rows && t.rows[a] == s.rows[a];
    }
  }

  lemma {:induction false} RunKeepsInv(s: State, steps: seq<Step>)
    requires Inv(s) && CanRun(s, steps)
    ensures Inv(Run(s, steps))
    decreases steps
  {
    if steps != [] {
      StepKeepsInv(s, steps[0]);
      RunKeepsInv(Apply(s, steps[0]), steps[1..]);
    }
  }

  predicate Start(s: State) {
    UniqueKeys(s.rows) && forall p | 0 <= p < |s.callers| :: s.callers[p].Selecting?
  }

  /** All callers of a key get the same id, which is the one row of that key; nobody ends empty-handed. */
  lemma CallersAgree(s: State, steps: seq<Step>, p: nat, q: nat)
    requires Start(s) && CanRun(s, steps)
    requires p < |Run(s, steps).callers| && q < |Run(s, steps).callers|
    ensures var t := Run(s, steps);
            && UniqueKeys(t.rows)
            && !t.callers[p].Missing?
            && (t.callers[p].Got? && t.callers[q].Got? && t.callers[p].key == t.callers[q].key ==>
                  t.callers[p].id == t.callers[q].id)
  {
    RunKeepsInv(s, steps);
  }

  function Rank(ph: Phase): nat {
    match ph case Selecting(_) => 3 case Inserting(_) => 2 case Reselecting(_) => 1 case _ => 0
  }

  /** Every unfinished caller can move, and each move of a caller brings it closer to its id. */
  lemma CallerProgresses(s: State, p: nat, newId: Id) returns (step: Step)
    requires Inv(s) && p < |s.callers| && !s.callers[p].Got? && newId !in s.rows
    ensures step.p == p && Enabled(s, step)
    ensures Rank(Apply(s, step).callers[p]) < Rank(s.callers[p])
    ensures s.callers[p].Reselecting? ==> Apply(s, step).callers[p].Got?
  {
    if s.callers[p].Inserting? {
      step := InsertRow(p, newId);
    } else if a :| a in s.rows && s.rows[a] == s.callers[p].key {
      step := SelectHit(p, a);
    } else {
      step := SelectMiss(p);
    }
  }

  // ---------------------------------------------------------------------------------------
  // One call, statement by statement

  /** Running these steps leads from one state to the other. */
  ghost predicate Reaches(from: State, steps: seq<Step>, to: State) {
    CanRun(from, steps) && Run(from, steps) == to
  }

  lemma {:induction false} ReachesNext(from: State, steps: seq<Step>, to: State, step: Step)
    requires Reaches(from, steps, to) && Enabled(to, step)
    ensures Reaches(from, steps + [step], Apply(to, step))
    decreases steps
  {
    var more := steps + [step];
    if steps == [] {
      assert more[1..] == [] && more == [step];
    } else {
      assert more[1..] == steps[1..] + [step];
      ReachesNext(Apply(from, steps[0]), steps[1..], to, step);
    }
  }

  /** Other callers whose select missed and who are about to insert. */
  function Inserters(inserts: seq<(Id, Key)>): (r: seq<Phase>)
    ensures |r| == |inserts| && forall i | 0 <= i < |inserts| :: r[i] == Inserting(inserts[i].1)
  {
    seq(|inserts|, i requires 0 <= i < |inserts| => Inserting(inserts[i].1))
  }

  /** Rows are only added. */
  ghost predicate Grows(a: Rows, b: Rows) {
    forall id | id in a :: id in b && b[id] == a[id]
  }

  /** A run so far: how it got where it is. */
  datatype Trace = Trace(from: State, steps: seq<Step>, to: State)

  ghost predicate Sound(t: Trace, rows: Rows) {
    Reaches(t.from, t.steps, t.to) && t.to.rows == rows && |t.to.callers| > 0
  }

  lemma Longer(t: Trace, step: Step) returns (u: Trace)
    requires Reaches(t.from, t.steps, t.to) && Enabled(t.to, step)
    ensures u.from == t.from && u.to == Apply(t.to, step) && Reaches(u.from, u.steps, u.to)
  {
    u := Trace(t.from, t.steps + [step], Apply(t.to, step));
    ReachesNext(t.from, t.steps, t.to, step);
  }

  /** Of the inserters at `offset`, those from `next` on are still to come. */
  ghost predicate Ahead(t: Trace, offset: nat, inserts: seq<(Id, Key)>, next: nat) {
    && offset + |inserts| <= |t.to.callers|
    && forall i | next <= i < |inserts| :: t.to.callers[offset + i] == Inserting(inserts[i].1)
  }

  lemma TraceKeepsInv(t: Trace, rows: Rows)
    requires Sound(t, rows) && Inv(t.from)
    ensures Inv(t.to) && UniqueKeys(rows)
  {
    RunKeepsInv(t.from, t.steps);
  }

  function StartOf(rows: Rows, key: Key, first: seq<(Id, Key)>, second: seq<(Id, Key)>): State {
    State(rows, [Selecting(key)] + Inserters(first) + Inserters(second))
  }

  lemma StartTrace(rows: Rows, key: Key, first: seq<(Id, Key)>, second: seq<(Id, Key)>) returns (t: Trace)
    requires UniqueKeys(rows)
    ensures t.from == t.to == StartOf(rows, key, first, second) && Sound(t, rows) && Inv(t.from)
    ensures t.to.callers[0] == Selecting(key)
    ensures Ahead(t, 1, first, 0) && Ahead(t, 1 + |first|, second, 0)
  {
    var start := StartOf(rows, key, first, second);
    t := Trace(start, [], start);
  }

  lemma MissTrace(t: Trace, rows: Rows, key: Key, first: seq<(Id, Key)>, second: seq<(Id, Key)>) returns (u: Trace)
    requires Sound(t, rows) && t.to.callers[0] == Selecting(key) && !Has(rows, key)
    requires Ahead(t, 1, first, 0) && Ahead(t, 1 + |first|, second, 0)
    ensures Sound(u, rows) && u.from == t.from && u.to.callers[0] == Inserting(key)
    ensures Ahead(u, 1, first, 0) && Ahead(u, 1 + |first|, second, 0)
  {
    u := Longer(t, SelectMiss(0));
  }

  /** One table and the three statements, with other callers' inserts landing between them. */
  class KeyedTable {
    var rows: Rows

    constructor ()
      ensures rows == map[]
    {
      rows := map[];
    }

    method Select(key: Key) returns (found: Option<Id>)
      ensures found.Some? <==> Has(rows, key)
      ensures found.Some? ==> found.value in rows && rows[found.value] == key
    {
      if a :| a in rows && rows[a] == key {
        found := Some(a);
      } else {
        found := None;
      }
    }

    /** INSERT ... ON CONFLICT DO NOTHING RETURNING id. */
    method Insert(id: Id, key: Key) returns (inserted: Option<Id>)
      requires id !in rows
      modifies this
      ensures rows == if Has(old(rows), key) then old(rows) else old(rows)[id := key]
      ensures inserted == if Has(old(rows), key) then None else Some(id)
      ensures old(UniqueKeys(rows)) ==> UniqueKeys(rows)
    {
      if Has(rows, key) {
        return None;
      }
      rows := rows[id := key];
      return Some(id);
    }

    /** Statements of other callers: guarded inserts with ids of their own. */
    method Others(inserts: seq<(Id, Key)>, ghost offset: nat, ghost t: Trace, ghost later: seq<(Id, Key)>)
      returns (ghost u: Trace)
      requires Sound(t, rows) && offset > 0 && Ahead(t, offset, inserts, 0) && Ahead(t, offset + |inserts|, later, 0)
      modifies this
      ensures Sound(u, rows) && u.from == t.from && Ahead(u, offset + |inserts|, later, 0)
      ensures u.to.callers[0] == t.to.callers[0] && Grows(old(rows), rows)
      ensures forall a | a in rows && a !in old(rows) :: exists i | 0 <= i < |inserts| :: inserts[i].0 == a
    {
      u := t;
      for i := 0 to |inserts|
        invariant Sound(u, rows) && u.from == t.from && u.to.callers[0] == t.to.callers[0]
        invariant Grows(old(rows), rows)
        invariant Ahead(u, offset, inserts, i) && Ahead(u, offset + |inserts|, later, 0)
        invariant forall a | a in rows && a !in old(rows) :: exists j | 0 <= j < i :: inserts[j].0 == a
      {
        if inserts[i].0 !in rows {
          u := Longer(u, InsertRow(offset + i, inserts[i].0));
          var _ := Insert(inserts[i].0, inserts[i].1);
        }
      }
    }

    /**
     The whole call is a run of the protocol's steps, with the other callers' inserts interleaved: so it returns
     the id of the one row with its key, and the final select never misses.
     */
    method Call(key: Key, newId: Id, first: seq<(Id, Key)>, second: seq<(Id, Key)>) returns (id: Id, ghost t: Trace)
      requires UniqueKeys(rows) && newId !in rows
      requires forall i | 0 <= i < |first| :: first[i].0 != newId
      modifies this
      ensures Sound(t, rows) && t.from == StartOf(old(rows), key, first, second) && t.to.callers[0] == Got(key, id)
      ensures UniqueKeys(rows) && id in rows && rows[id] == key && Grows(old(rows), rows)
      ensures old(Has(rows, key)) ==> id in old(rows)
    {
      t := StartTrace(rows, key, first, second);
      var found := Select(key);
      if found.Some? {
        t := Longer(t, SelectHit(0, found.value));
        return found.value, t;
      }
      t := MissTrace(t, rows, key, first, second);
      t := Others(first, 1, t, second);
      id, t := InsertOrReselect(key, newId, 1 + |first|, second, t);
    }

    /** The rest of the call after its select missed. */
    method InsertOrReselect(key: Key, newId: Id, ghost offset: nat, second: seq<(Id, Key)>, ghost t: Trace)
      returns (id: Id, ghost u: Trace)
      requires Sound(t, rows) && Inv(t.from) && t.to.callers[0] == Inserting(key) && newId !in rows
      requires offset > 0 && Ahead(t, offset, second, 0)
      modifies this
      ensures Sound(u, rows) && u.from == t.from && u.to.callers[0] == Got(key, id)
      ensures UniqueKeys(rows) && id in rows && rows[id] == key && Grows(old(rows), rows)
    {
      u := Longer(t, InsertRow(0, newId));
      var inserted := Insert(newId, key);
      TraceKeepsInv(u, rows);
      if inserted.Some? {
        return inserted.value, u;
      }
      u := Others(second, offset, u, []);
      TraceKeepsInv(u, rows);
      var found := Select(key);
      id := found.value;
      u := Longer(u, SelectHit(0, id));
    }
  }
}
