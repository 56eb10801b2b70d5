/**
 Alert delivery leasing (internal/db/alert.sql.go, internal/service/alert_delivery.go).

 The four statements on alert_delivery are functions on the table.  Any number of dispatchers
 interleave them with clock readings and sends; every statement is one atomic step and all
 readings come from one clock that never goes back.  A dispatcher that dies simply takes no
 further step.
 */
module AlertDelivery {
  import opened Options

  type Id = int

  datatype Channel = Webhook | Slack | GitHubCheck | GitHubComment | Email
  datatype Status = Pending | Failed | Delivered

  datatype Delivery = Delivery(
    event: Id, channel: Channel, target: Id, status: Status, attempts: nat,
    nextAttempt: Option<int>, deliveredAt: Option<int>, createdAt: int)

  type Table = map<Id, Delivery>

  // ---------------------------------------------------------------------------------------
  // The statements

  predicate HasDelivery(rows: Table, event: Id, channel: Channel, target: Id) {
    exists d | d in rows :: rows[d].event == event && rows[d].channel == channel && rows[d].target == target
  }

  /** InsertAlertDelivery: ON CONFLICT (event_id, channel, target) DO NOTHING. */
  function Insert(rows: Table, id: Id, event: Id, channel: Channel, target: Id, at: int): Table {
    if HasDelivery(rows, event, channel, target) then rows
    else rows[id := Delivery(event, channel, target, Pending, 0, None, None, at)]
  }

  /** The WHERE clause of ClaimPendingAlertDeliveries. */
  predicate Eligible(rows: Table, id: Id, channel: Channel, target: Id, now: int) {
    && id in rows
    && rows[id].channel == channel
    && rows[id].target == target
    && rows[id].status != Delivered
    && (rows[id].nextAttempt.Some? ==> rows[id].nextAttempt.value <= now)
  }

  function Claim(rows: Table, id: Id, leaseUntil: int): Table
    requires id in rows
  {
    rows[id := rows[id].(attempts := rows[id].attempts + 1, nextAttempt := Some(leaseUntil))]
  }

  /** MarkAlertDeliveryDelivered has no guard on the status. */
  function MarkDelivered(rows: Table, id: Id, at: int): Table {
    if id !in rows then rows
    else rows[id := rows[id].(status := Delivered, nextAttempt := None, deliveredAt := Some(at))]
  }

  /** MarkAlertDeliveryFailed leaves a delivered row alone. */
  function MarkFailed(rows: Table, id: Id, nextAttemptAt: int): Table {
    if id !in rows || rows[id].status == Delivered then rows
    else rows[id := rows[id].(status := Failed, nextAttempt := Some(nextAttemptAt))]
  }

  /** alert_delivery_event_channel_target_key. */
  predicate UniqueTargets(rows: Table) {
    forall d, e | d in rows && e in rows && rows[d].event == rows[e].event
                  && rows[d].channel == rows[e].channel && rows[d].target == rows[e].target :: d == e
  }

  /** A row waits for nothing: it has no next attempt time, or that time has come. */
  predicate Due(r: Delivery, now: int) {
    r.nextAttempt.None? || r.nextAttempt.value <= now
  }

  /** Only an undelivered row of the caller's own channel and target whose time has come can be claimed. */
  lemma EligibleMeaning(rows: Table, id: Id, channel: Channel, target: Id, now: int)
    ensures Eligible(rows, id, channel, target, now)
            <==> id in rows && rows[id].channel == channel && rows[id].target == target
                 && (rows[id].status == Pending || rows[id].status == Failed) && Due(rows[id], now)
  {
  }

  /** A fresh delivery can be claimed at once; one that exists already is left alone. */
  lemma InsertMeaning(rows: Table, id: Id, event: Id, channel: Channel, target: Id, at: int, now: int)
    requires id !in rows
    ensures var after := Insert(rows, id, event, channel, target, at);
            && (forall d | d in rows :: d in after && after[d] == rows[d])
            && (HasDelivery(rows, event, channel, target) ==> after == rows)
            && (!HasDelivery(rows, event, channel, target) ==>
                  && after.Keys == rows.Keys + {id} && Eligible(after, id, channel, target, now)
                  && after[id].event == event && after[id].attempts == 0 && after[id].createdAt == at
                  && after[id].status == Pending && after[id].deliveredAt.None?)
  {
  }

  /** A claim holds the row until its lease ends and counts one attempt; no other row changes. */
  lemma ClaimLeases(rows: Table, id: Id, channel: Channel, target: Id, claimAt: int, lease: int, now: int)
    requires Eligible(rows, id, channel, target, claimAt)
    ensures var after := Claim(rows, id, lease);
            && (Eligible(after, id, channel, target, now) <==> lease <= now)
            && after[id].attempts == rows[id].attempts + 1 && after[id].event == rows[id].event
            && forall d | d in after && d != id :: d in rows && after[d] == rows[d]
  {
  }

  /**
   A recorded failure of an undelivered row backs off: it can be claimed again exactly from the next attempt
   time on.
   */
  lemma FailureBacksOff(rows: Table, id: Id, channel: Channel, target: Id, next: int, now: int)
    requires id in rows && rows[id].status != Delivered && rows[id].channel == channel && rows[id].target == target
    ensures var after := MarkFailed(rows, id, next);
            && (Eligible(after, id, channel, target, now) <==> next <= now)
            && after[id].status == Failed && after[id].attempts == rows[id].attempts
            && after[id].event == rows[id].event
            && forall d | d in after && d != id :: d in rows && after[d] == rows[d]
  {
  }

  /** A recorded delivery can never be claimed again, and failing it later changes nothing. */
  lemma DeliveryEnds(rows: Table, id: Id, channel: Channel, target: Id, at: int, now: int, next: int)
    requires id in rows
    ensures var after := MarkDelivered(rows, id, at);
            && !Eligible(after, id, channel, target, now) && MarkFailed(after, id, next) == after
            && after[id].deliveredAt == Some(at) && after[id].attempts == rows[id].attempts
            && forall d | d in after && d != id :: d in rows && after[d] == rows[d]
  {
  }

  // ---------------------------------------------------------------------------------------
  // The protocol

  /** Where one dispatcher is in its loop; a lease is held from the claim until the mark. */
  datatype Phase =
    | Idle
    | Claiming(claimAt: int)
    | Sending(id: Id, lease: int)
    | Sent(id: Id, lease: int, ok: bool)
    | Marking(id: Id, lease: int, ok: bool, attemptedAt: int)

  predicate Holds(p: Phase) {
    p.Sending? || p.Sent? || p.Marking?
  }

  predicate SentOk(p: Phase) {
    (p.Sent? || p.Marking?) && p.ok
  }

  /** `claims` and `sent` record every claim and every successful send, by delivery id. */
  datatype State = State(clock: int, rows: Table, phases: seq<Phase>, claims: seq<Id>, sent: seq<Id>)

  datatype Step =
    | Tick(now: int)
    | Enqueue(id: Id, event: Id, channel: Channel, target: Id, at: int)
    | ReadClaimTime(p: nat)
    | ClaimOne(p: nat, d: Id, channel: Channel, target: Id, retryAfter: int)
    | ClaimNone(p: nat)
    | Send(p: nat, success: bool)
    | ReadMarkTime(p: nat)
    | Mark(p: nat, retryAfter: int)

  predicate Enabled(s: State, step: Step) {
    match step
    case Tick(now) => s.clock <= now
    case Enqueue(id, _, _, _, _) => id !in s.rows
    case ReadClaimTime(p) => p < |s.phases| && s.phases[p].Idle?
    case ClaimOne(p, d, channel, target, _) =>
      p < |s.phases| && s.phases[p].Claiming? && Eligible(s.rows, d, channel, target, s.phases[p].claimAt)
    case ClaimNone(p) => p < |s.phases| && s.phases[p].Claiming?
    case Send(p, _) => p < |s.phases| && s.phases[p].Sending?
    case ReadMarkTime(p) => p < |s.phases| && s.phases[p].Sent?
    case Mark(p, _) => p < |s.phases| && s.phases[p].Marking?
  }

  function Apply(s: State, step: Step): State
    requires Enabled(s, step)
  {
    match step
    case Tick(now) => s.(clock := now)
    case Enqueue(id, event, channel, target, at) => s.(rows := Insert(s.rows, id, event, channel, target, at))
    case ReadClaimTime(p) => s.(phases := s.phases[p := Claiming(s.clock)])
    case ClaimOne(p, d, _, _, retryAfter) =>
      var lease := s.phases[p].claimAt + retryAfter;
      s.(rows := Claim(s.rows, d, lease), phases := s.phases[p := Sending(d, lease)], claims := s.claims + [d])
    case ClaimNone(p) => s.(phases := s.phases[p := Idle])
    case Send(p, ok) =>
      var ph := s.phases[p];
      s.(phases := s.phases[p := Sent(ph.id, ph.lease, ok)], sent := if ok then s.sent + [ph.id] else s.sent)
    case ReadMarkTime(p) =>
      var ph := s.phases[p];
      s.(phases := s.phases[p := Marking(ph.id, ph.lease, ph.ok, s.clock)])
    case Mark(p, retryAfter) =>
      var ph := s.phases[p];
      s.(rows := if ph.ok then MarkDelivered(s.rows, ph.id, ph.attemptedAt)
                 else MarkFailed(s.rows, ph.id, ph.attemptedAt + retryAfter),
         phases := s.phases[p := Idle])
  }

  predicate CanRun(s: State, steps: seq<Step>)
    decreases steps
  {
    steps == [] || (Enabled(s, steps[0]) && CanRun(Apply(s, steps[0]), steps[1..]))
  }

  function Run(s: State, steps: seq<Step>): State
    requires CanRun(s, steps)
    decreases steps
  {
    if steps == [] then s else Run(Apply(s, steps[0]), steps[1..])
  }

  /**
   What the protocol's own steps record.  A claim takes the claimant's lease from its clock reading; a mark records the
   send's outcome with the time read before it: delivered, or failed and backing off, and lets go of the row.
   */
  lemma StepRecords(s: State, step: Step, now: int)
    requires Enabled(s, step)
    ensures step.ClaimOne? ==>
              var t := Apply(s, step);
              var lease := s.phases[step.p].claimAt + step.retryAfter;
              && |t.phases| == |s.phases| && t.phases[step.p] == Sending(step.d, lease) && step.d in t.rows
              && t.rows[step.d].nextAttempt == Some(lease)
    ensures step.Send? ==>
              var t := Apply(s, step);
              && t.rows == s.rows && |t.phases| == |s.phases|
              && t.phases[step.p].Sent? && t.phases[step.p].ok == step.success
              && t.sent == if step.success then s.sent + [s.phases[step.p].id] else s.sent
    ensures step.ReadClaimTime? ==>
              var t := Apply(s, step);
              |t.phases| == |s.phases| && t.phases[step.p] == Claiming(s.clock) && t.rows == s.rows
    ensures step.ReadMarkTime? ==>
              var t, ph := Apply(s, step), s.phases[step.p];
              && |t.phases| == |s.phases| && t.phases[step.p] == Marking(ph.id, ph.lease, ph.ok, s.clock)
              && t.rows == s.rows
    ensures step.Mark? && s.phases[step.p].id in s.rows ==>
              var t, ph := Apply(s, step), s.phases[step.p];
              && |t.phases| == |s.phases| && t.phases[step.p].Idle? && ph.id in t.rows
              && (ph.ok ==> t.rows[ph.id].status == Delivered && t.rows[ph.id].deliveredAt == Some(ph.attemptedAt))
              && (!ph.ok && s.rows[ph.id].status != Delivered ==>
                    t.rows[ph.id].status == Failed
                    && (Due(t.rows[ph.id], now) <==> ph.attemptedAt + step.retryAfter <= now))
  {
  }

  /** No delivery yet, every dispatcher idle. */
  predicate Init(s: State) {
    && s.rows == map[] && s.claims == [] && s.sent == []
    && forall p | 0 <= p < |s.phases| :: s.phases[p].Idle?
  }

  // ---------------------------------------------------------------------------------------
  // Every run

  predicate Inv(s: State) {
    && UniqueTargets(s.rows)
    && (forall d | d in s.rows :: s.rows[d].attempts == multiset(s.claims)[d])
    && (forall d | d in s.claims :: d in s.rows)
    && (forall p | 0 <= p < |s.phases| && Holds(s.phases[p]) :: s.phases[p].id in s.rows)
    && (forall p | 0 <= p < |s.phases| && s.phases[p].Claiming? :: s.phases[p].claimAt <= s.clock)
  }

  lemma ClaimKeepsInv(s: State, step: Step)
    requires Inv(s) && Enabled(s, step) && step.ClaimOne?
    ensures Inv(Apply(s, step))
  {
    assert multiset(Apply(s, step).claims) == multiset(s.claims) + multiset{step.d};
  }

  lemma EnqueueKeepsInv(s: State, step: Step)
    requires Inv(s) && Enabled(s, step) && step.Enqueue?
    ensures Inv(Apply(s, step))
  {
    assert step.id !in s.claims;
    assert multiset(s.claims)[step.id] == 0;
  }

  lemma StepKeepsInv(s: State, step: Step)
    requires Inv(s) && Enabled(s, step)
    ensures Inv(Apply(s, step))
  {
    if step.ClaimOne? {
      ClaimKeepsInv(s, step);
    } else if step.Enqueue? {
      EnqueueKeepsInv(s, step);
    }
  }

  /** In every reachable state attempts count the claims and each (event, channel, target) has one row. */
  lemma {:induction false} RunKeepsInv(s: State, steps: seq<Step>)
    requires Inv(s) && CanRun(s, steps)
    ensures Inv(Run(s, steps))
    decreases steps
  {
    if steps != [] {
      StepKeepsInv(s, steps[0]);
      RunKeepsInv(Apply(s, steps[0]), steps[1..]);
    }
  }

  lemma ReachableInv(s: State, steps: seq<Step>)
    requires Init(s) && CanRun(s, steps)
    ensures var t := Run(s, steps);
            && UniqueTargets(t.rows)
            && forall d | d in t.rows :: t.rows[d].attempts == multiset(t.claims)[d]
  {
    RunKeepsInv(s, steps);
  }

  /** Delivered is final: whatever runs afterwards, the row stays delivered and is never claimed again. */
  lemma {:induction false} DeliveredIsFinal(s: State, steps: seq<Step>, d: Id)
    requires CanRun(s, steps)
    requires d in s.rows && s.rows[d].status == Delivered
    ensures var t := Run(s, steps);
            && d in t.rows && t.rows[d].status == Delivered && t.rows[d].attempts == s.rows[d].attempts
            && multiset(t.claims)[d] == multiset(s.claims)[d]
    decreases steps
  {
    if steps != [] {
      DeliveredIsFinal(Apply(s, steps[0]), steps[1..], d);
    }
  }

  // ---------------------------------------------------------------------------------------
  // Runs in which outcomes are recorded before leases end

  /** No lease has run out in the hands of its holder. */
  predicate Timely(s: State) {
    forall p | 0 <= p < |s.phases| && Holds(s.phases[p]) :: s.clock < s.phases[p].lease
  }

  /** Every state of the run is timely. */
  predicate TimelyRun(s: State, steps: seq<Step>)
    requires CanRun(s, steps)
    decreases steps
  {
    Timely(s) && (steps == [] || TimelyRun(Apply(s, steps[0]), steps[1..]))
  }

  /** A held row still carries its holder's lease, and no two dispatchers hold one row. */
  predicate HoldersApart(s: State) {
    && (forall p | 0 <= p < |s.phases| && Holds(s.phases[p]) ::
          && s.phases[p].id in s.rows
          && s.rows[s.phases[p].id].nextAttempt == Some(s.phases[p].lease)
          && s.rows[s.phases[p].id].status != Delivered)
    && (forall p, q | 0 <= p < q < |s.phases| && Holds(s.phases[p]) && Holds(s.phases[q]) ::
          s.phases[p].id != s.phases[q].id)
  }

  predicate HeldAsSent(s: State, d: Id) {
    exists p | 0 <= p < |s.phases| :: SentOk(s.phases[p]) && s.phases[p].id == d
  }

  /** A sent delivery is delivered already or about to be marked, and was sent once. */
  predicate SendsOnce(s: State) {
    && (forall p | 0 <= p < |s.phases| && Holds(s.phases[p]) :: s.phases[p].id in s.sent ==> SentOk(s.phases[p]))
    && (forall d | d in s.sent ::
          && d in s.rows
          && multiset(s.sent)[d] == 1
          && (s.rows[d].status == Delivered || HeldAsSent(s, d)))
  }

  predicate Exclusive(s: State) {
    HoldersApart(s) && SendsOnce(s)
  }

  lemma StepKeepsHoldersApart(s: State, step: Step)
    requires Inv(s) && HoldersApart(s) && Timely(s) && Enabled(s, step)
    ensures HoldersApart(Apply(s, step))
  {
    if step.ClaimOne? {
      assert forall q | 0 <= q < |s.phases| && Holds(s.phases[q]) :: s.phases[q].id != step.d;
    }
  }

  /** Moving a dispatcher whose own delivery stays as sent as it was. */
  lemma HeldAsSentKept(s: State, t: State, p: nat, d: Id)
    requires p < |s.phases| == |t.phases|
    requires forall q | 0 <= q < |s.phases| && q != p :: t.phases[q] == s.phases[q]
    requires SentOk(s.phases[p]) && s.phases[p].id == d ==> SentOk(t.phases[p]) && t.phases[p].id == d
    requires HeldAsSent(s, d)
    ensures HeldAsSent(t, d)
  {
    var q :| 0 <= q < |s.phases| && SentOk(s.phases[q]) && s.phases[q].id == d;
    assert SentOk(t.phases[q]) && t.phases[q].id == d;
  }

  lemma ClaimKeepsSendsOnce(s: State, step: Step)
    requires step.ClaimOne?
    requires Inv(s) && Exclusive(s) && Timely(s) && Enabled(s, step)
    ensures SendsOnce(Apply(s, step))
  {
    var t := Apply(s, step);
    assert forall q | 0 <= q < |s.phases| && Holds(s.phases[q]) :: s.phases[q].id != step.d;
    assert step.d !in s.sent;
    forall d | d in t.sent && t.rows[d].status != Delivered ensures HeldAsSent(t, d) {
      HeldAsSentKept(s, t, step.p, d);
    }
  }

  lemma SendKeepsSendsOnce(s: State, step: Step)
    requires step.Send?
    requires Exclusive(s) && Enabled(s, step)
    ensures SendsOnce(Apply(s, step))
  {
    var t := Apply(s, step);
    var mine := s.phases[step.p].id;
    if step.success {
      assert multiset(t.sent) == multiset(s.sent) + multiset{mine};
      assert mine !in s.sent && multiset(s.sent)[mine] == 0;
      assert SentOk(t.phases[step.p]) && HeldAsSent(t, mine);
    }
    forall d | d in s.sent && s.rows[d].status != Delivered ensures HeldAsSent(t, d) {
      HeldAsSentKept(s, t, step.p, d);
    }
  }

  lemma MarkKeepsSendsOnce(s: State, step: Step)
    requires step.Mark?
    requires Exclusive(s) && Enabled(s, step)
    ensures SendsOnce(Apply(s, step))
  {
    var t := Apply(s, step);
    var mine := s.phases[step.p].id;
    forall d | d in s.sent && t.rows[d].status != Delivered ensures HeldAsSent(t, d) {
      if SentOk(s.phases[step.p]) { assert d != mine; }
      HeldAsSentKept(s, t, step.p, d);
    }
  }

  lemma QuietStepKeepsSendsOnce(s: State, step: Step)
    requires !step.ClaimOne? && !step.Send? && !step.Mark?
    requires Exclusive(s) && Enabled(s, step)
    ensures SendsOnce(Apply(s, step))
  {
    var t := Apply(s, step);
    forall d | d in s.sent && s.rows[d].status != Delivered ensures HeldAsSent(t, d) {
      if step.Tick? || step.Enqueue? {
        var q :| 0 <= q < |s.phases| && SentOk(s.phases[q]) && s.phases[q].id == d;
        assert SentOk(t.phases[q]);
      } else {
        HeldAsSentKept(s, t, step.p, d);
      }
    }
  }

  lemma StepKeepsExclusive(s: State, step: Step)
    requires Inv(s) && Exclusive(s) && Timely(s) && Enabled(s, step)
    ensures Exclusive(Apply(s, step))
  {
    StepKeepsHoldersApart(s, step);
    match step
    case ClaimOne(_, _, _, _, _) => ClaimKeepsSendsOnce(s, step);
    case Send(_, _) => SendKeepsSendsOnce(s, step);
    case Mark(_, _) => MarkKeepsSendsOnce(s, step);
    case _ => QuietStepKeepsSendsOnce(s, step);
  }

  lemma {:induction false} RunKeepsExclusive(s: State, steps: seq<Step>)
    requires Inv(s) && Exclusive(s) && CanRun(s, steps) && TimelyRun(s, steps)
    ensures Exclusive(Run(s, steps))
    decreases steps
  {
    if steps != [] {
      StepKeepsInv(s, steps[0]);
      StepKeepsExclusive(s, steps[0]);
      RunKeepsExclusive(Apply(s, steps[0]), steps[1..]);
    }
  }

  /** In a timely run no delivery is held by two dispatchers at once and none is sent successfully twice. */
  lemma TimelyRunIsExclusive(s: State, steps: seq<Step>)
    requires Init(s) && CanRun(s, steps) && TimelyRun(s, steps)
    ensures var t := Run(s, steps);
            && (forall p, q | 0 <= p < q < |t.phases| && Holds(t.phases[p]) && Holds(t.phases[q]) ::
                  t.phases[p].id != t.phases[q].id)
            && forall d :: multiset(t.sent)[d] <= 1
  {
    assert Exclusive(s);
    RunKeepsExclusive(s, steps);
    var t := Run(s, steps);
    forall d ensures multiset(t.sent)[d] <= 1 {
      if d in t.sent { assert multiset(t.sent)[d] == 1; } else { assert multiset(t.sent)[d] == 0; }
    }
  }

  /** Dispatcher q claims p's delivery after p's lease ran out, and both send it. */
  function Overtake(s: State, p: nat, q: nat): seq<Step>
    requires p < |s.phases| && s.phases[p].Sending? && s.phases[p].id in s.rows
  {
    var d := s.phases[p].id;
    [ReadClaimTime(q), ClaimOne(q, d, s.rows[d].channel, s.rows[d].target, 1), Send(p, true), Send(q, true)]
  }

  lemma RunTwo(s: State, a: Step, b: Step, rest: seq<Step>)
    requires Enabled(s, a) && Enabled(Apply(s, a), b) && CanRun(Apply(Apply(s, a), b), rest)
    ensures CanRun(s, [a, b] + rest) && Run(s, [a, b] + rest) == Run(Apply(Apply(s, a), b), rest)
  {
    var steps := [a, b] + rest;
    assert steps[1..] == [b] + rest && steps[1..][1..] == rest;
    assert CanRun(Apply(s, a), [b] + rest);
  }

  /**
   The timeliness assumption cannot be dropped: from every state in which a lease has run out in
   a sender's hands and another dispatcher is idle, a run of four steps has the delivery held by
   two dispatchers and sent successfully twice.
   */
  lemma ExpiredLeaseIsShared(s: State, p: nat, q: nat)
    requires Inv(s) && HoldersApart(s)
    requires p < |s.phases| && q < |s.phases| && s.phases[p].Sending? && s.phases[q].Idle?
    requires s.phases[p].lease <= s.clock
    ensures CanRun(s, Overtake(s, p, q))
    ensures var t := Run(s, Overtake(s, p, q));
            var d := s.phases[p].id;
            && |t.phases| == |s.phases|
            && Holds(t.phases[p]) && Holds(t.phases[q]) && t.phases[p].id == t.phases[q].id == d
            && multiset(t.sent)[d] == multiset(s.sent)[d] + 2
  {
    var steps, d := Overtake(s, p, q), s.phases[p].id;
    var s1 := Apply(s, steps[0]);
    var s2 := Apply(s1, steps[1]);
    var s3 := Apply(s2, steps[2]);
    var s4 := Apply(s3, steps[3]);
    assert CanRun(s4, []);
    RunTwo(s2, steps[2], steps[3], []);
    RunTwo(s, steps[0], steps[1], [steps[2], steps[3]]);
    assert [steps[2], steps[3]] + [] == [steps[2], steps[3]];
    assert steps == [steps[0], steps[1]] + [steps[2], steps[3]];
    assert s4.sent == s.sent + [d, d];
  }

  lemma {:induction false} RunJoin(s: State, a: seq<Step>, b: seq<Step>)
    requires CanRun(s, a) && CanRun(Run(s, a), b)
    ensures CanRun(s, a + b) && Run(s, a + b) == Run(Run(s, a), b)
    decreases a
  {
    if a == [] {
      assert a + b == b;
    } else {
      assert (a + b)[1..] == a[1..] + b;
      RunJoin(Apply(s, a[0]), a[1..], b);
    }
  }

  /** One dispatcher claims the only delivery and is overtaken by the clock. */
  function Overdue(d: Id, event: Id, channel: Channel, target: Id, clock: int): seq<Step> {
    [Enqueue(d, event, channel, target, clock), ReadClaimTime(0), ClaimOne(0, d, channel, target, 1), Tick(clock + 1)]
  }

  lemma OverdueReached(s: State, d: Id, event: Id, channel: Channel, target: Id)
    requires Init(s) && |s.phases| >= 2
    ensures var steps := Overdue(d, event, channel, target, s.clock);
            && CanRun(s, steps)
            && var t := Run(s, steps);
            && |t.phases| == |s.phases| && t.phases[0] == Sending(d, t.clock) && t.phases[1].Idle? && t.sent == []
            && HoldersApart(t)
  {
    var steps := Overdue(d, event, channel, target, s.clock);
    var s1 := Apply(s, steps[0]);
    var s2 := Apply(s1, steps[1]);
    var s3 := Apply(s2, steps[2]);
    RunTwo(s2, steps[2], steps[3], []);
    RunTwo(s, steps[0], steps[1], [steps[2], steps[3]]);
    assert [steps[2], steps[3]] + [] == [steps[2], steps[3]];
    assert steps == [steps[0], steps[1]] + [steps[2], steps[3]];
    assert Run(s, steps) == Apply(s3, steps[3]);
  }

  /** So from every start with two dispatchers some run sends a delivery successfully twice. */
  lemma LateRunSendsTwice(s: State, d: Id, event: Id, channel: Channel, target: Id) returns (steps: seq<Step>)
    requires Init(s) && |s.phases| >= 2
    ensures CanRun(s, steps) && !TimelyRun(s, steps) && multiset(Run(s, steps).sent)[d] == 2
  {
    var first := Overdue(d, event, channel, target, s.clock);
    OverdueReached(s, d, event, channel, target);
    RunKeepsInv(s, first);
    var t := Run(s, first);
    ExpiredLeaseIsShared(t, 0, 1);
    steps := first + Overtake(t, 0, 1);
    RunJoin(s, first, Overtake(t, 0, 1));
    if TimelyRun(s, steps) {
      TimelyRunIsExclusive(s, steps);
    }
  }
}
