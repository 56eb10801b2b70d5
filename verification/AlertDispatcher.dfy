/**
 One call of AlertDeliveryDispatcher.Deliver over the delivery table: enqueue, then claim, send and
 mark up to `limit` times, keeping the summary.  Other dispatchers' statements land before each of
 its own.  Clock readings, send outcomes, store errors and interference are given by number.
 */
module AlertDispatcher {
  import opened Options
  import opened AlertDelivery

  datatype Event = Event(id: Id, createdAt: int, repository: Id)

  datatype Summary = Summary(enqueued: nat, attempted: nat, delivered: nat, failed: nat, failures: seq<Id>)

  /** What Deliver returns besides the summary. */
  datatype Outcome = Ok | SomeFailed | StoreError

  // ---------------------------------------------------------------------------------------
  // Selecting events

  /** The WHERE clause of SelectAlertEventsWithoutDelivery. */
  predicate Undelivered(rows: Table, e: Event, channel: Channel, target: Id) {
    && !HasDelivery(rows, e.id, channel, target)
    && (channel.GitHubCheck? || channel.GitHubComment? ==> e.repository == target)
  }

  predicate Before(a: Event, b: Event) {
    a.createdAt < b.createdAt || (a.createdAt == b.createdAt && a.id < b.id)
  }

  /** ORDER BY created_at, id. */
  predicate Ascending(events: seq<Event>) {
    forall i, j | 0 <= i < j < |events| :: Before(events[i], events[j])
  }

  /** The earliest `limit` undelivered events, in order. */
  function UndeliveredEvents(rows: Table, events: seq<Event>, channel: Channel, target: Id, limit: nat): (r: seq<Event>)
    requires Ascending(events)
    ensures |r| <= limit && Ascending(r)
    ensures forall e | e in r :: e in events && Undelivered(rows, e, channel, target)
    ensures |r| < limit ==> forall e | e in events && Undelivered(rows, e, channel, target) :: e in r
    ensures forall e, d | e in events && Undelivered(rows, e, channel, target) && d in r && Before(e, d) :: e in r
  {
    if events == [] || limit == 0 then []
    else
      assert forall e | e in events :: e == events[0] || e in events[1..];
      assert forall e | e in events[1..] :: Before(events[0], e);
      if Undelivered(rows, events[0], channel, target) then
        [events[0]] + UndeliveredEvents(rows, events[1..], channel, target, limit - 1)
      else UndeliveredEvents(rows, events[1..], channel, target, limit)
  }

  /**
   An event is selected only if no row has its id with this channel and target, and for GitHub only in its
   repository.
   */
  lemma UndeliveredMeaning(rows: Table, e: Event, channel: Channel, target: Id)
    ensures Undelivered(rows, e, channel, target)
            <==> (forall d | d in rows ::
                    !(rows[d].event == e.id && rows[d].channel == channel && rows[d].target == target))
                 && (channel == GitHubCheck || channel == GitHubComment ==> e.repository == target)
  {
  }

  // ---------------------------------------------------------------------------------------
  // Claiming the first eligible row

  predicate NothingToClaim(rows: Table, channel: Channel, target: Id, now: int) {
    forall d | d in rows :: !Eligible(rows, d, channel, target, now)
  }

  /** `d` comes before every other eligible row in ORDER BY created_at, id. */
  predicate FirstEligible(rows: Table, d: Id, channel: Channel, target: Id, now: int) {
    && Eligible(rows, d, channel, target, now)
    && forall e | e in rows && Eligible(rows, e, channel, target, now) ::
         rows[d].createdAt < rows[e].createdAt || (rows[d].createdAt == rows[e].createdAt && d <= e)
  }

  lemma {:induction false} FirstEligibleExists(
    rows: Table, left: set<Id>, channel: Channel, target: Id, now: int, best: Id)
    requires left <= rows.Keys && best in rows && Eligible(rows, best, channel, target, now)
    requires forall e | Eligible(rows, e, channel, target, now) && e !in left ::
               rows[best].createdAt < rows[e].createdAt || (rows[best].createdAt == rows[e].createdAt && best <= e)
    ensures exists d :: FirstEligible(rows, d, channel, target, now)
    decreases left
  {
    if left == {} {
      assert FirstEligible(rows, best, channel, target, now);
    } else {
      var x := SomeElement(left);
      var better := Eligible(rows, x, channel, target, now)
                    && (rows[x].createdAt < rows[best].createdAt
                        || (rows[x].createdAt == rows[best].createdAt && x < best));
      FirstEligibleExists(rows, left - {x}, channel, target, now, if better then x else best);
    }
  }

  // ---------------------------------------------------------------------------------------
  // Statements, anyone's

  datatype Statement =
    | InsertRow(id: Id, event: Id, channel: Channel, target: Id, at: int)
    | ClaimRow(id: Id, channel: Channel, target: Id, now: int, lease: int)
    | DeliverRow(id: Id, at: int)
    | FailRow(id: Id, next: int)

  function Effect(rows: Table, st: Statement): Table {
    match st
    case InsertRow(id, event, channel, target, at) =>
      if id in rows then rows else Insert(rows, id, event, channel, target, at)
    case ClaimRow(id, channel, target, now, lease) =>
      if Eligible(rows, id, channel, target, now) then Claim(rows, id, lease) else rows
    case DeliverRow(id, at) => MarkDelivered(rows, id, at)
    case FailRow(id, next) => MarkFailed(rows, id, next)
  }

  predicate Inserts(rows: Table, st: Statement) {
    st.InsertRow? && st.id !in rows && !HasDelivery(rows, st.event, st.channel, st.target)
  }

  predicate Claims(rows: Table, st: Statement) {
    st.ClaimRow? && Eligible(rows, st.id, st.channel, st.target, st.now)
  }

  predicate Delivers(rows: Table, st: Statement) {
    st.DeliverRow? && st.id in rows
  }

  /** The rows one side inserted, claimed and marked delivered. */
  datatype Part = Part(inserted: seq<Id>, claims: seq<Id>, delivered: seq<Id>)

  /** Everything done since Deliver began: by this dispatcher and by the others. */
  datatype Ledger = Ledger(mine: Part, theirs: Part)

  const NOTHING := Ledger(Part([], [], []), Part([], [], []))

  function Noted(p: Part, rows: Table, st: Statement): Part {
    if Inserts(rows, st) then p.(inserted := p.inserted + [st.id])
    else if Claims(rows, st) then p.(claims := p.claims + [st.id])
    else if Delivers(rows, st) then p.(delivered := p.delivered + [st.id])
    else p
  }

  function Recorded(l: Ledger, rows: Table, st: Statement, own: bool): Ledger {
    if own then l.(mine := Noted(l.mine, rows, st)) else l.(theirs := Noted(l.theirs, rows, st))
  }

  // ---------------------------------------------------------------------------------------
  // The table follows the ledger

  /** Rows are the old ones and the inserted ones, and keep their event, channel and target. */
  ghost predicate KeysAccounted(before: Table, rows: Table, l: Ledger) {
    && (forall d :: d in rows <==> d in before || d in l.mine.inserted || d in l.theirs.inserted)
    && (forall d | d in before ::
          d in rows && rows[d].event == before[d].event && rows[d].channel == before[d].channel
          && rows[d].target == before[d].target)
    && (forall d | d in l.mine.claims || d in l.theirs.claims :: d in rows)
    && (forall d | d in l.mine.delivered || d in l.theirs.delivered :: d in rows)
  }

  function AttemptsIn(t: Table, d: Id): nat {
    if d in t then t[d].attempts else 0
  }

  /** Attempts grew by the claims. */
  ghost predicate AttemptsAccounted(before: Table, rows: Table, l: Ledger) {
    forall d | d in rows ::
      rows[d].attempts == AttemptsIn(before, d) + multiset(l.mine.claims)[d] + multiset(l.theirs.claims)[d]
  }

  predicate DeliveredIn(t: Table, d: Id) {
    d in t && t[d].status == Delivered
  }

  /** Delivered rows are the old ones and those marked since. */
  ghost predicate DeliveriesAccounted(before: Table, rows: Table, l: Ledger) {
    forall d | d in rows ::
      DeliveredIn(rows, d) <==> DeliveredIn(before, d) || d in l.mine.delivered || d in l.theirs.delivered
  }

  predicate Distinct(ids: seq<Id>) {
    forall i, j | 0 <= i < j < |ids| :: ids[i] != ids[j]
  }

  /** This dispatcher inserted fresh rows, and delivered rows it had claimed undelivered, each once. */
  ghost predicate OwnWork(before: Table, l: Ledger) {
    && Distinct(l.mine.inserted) && Distinct(l.mine.delivered)
    && (forall d | d in l.mine.inserted :: d !in before)
    && (forall d | d in l.mine.claims :: !DeliveredIn(before, d))
    && (forall d | d in l.mine.delivered :: d in l.mine.claims)
  }

  ghost predicate Accounted(before: Table, rows: Table, l: Ledger) {
    && KeysAccounted(before, rows, l) && AttemptsAccounted(before, rows, l)
    && DeliveriesAccounted(before, rows, l) && OwnWork(before, l)
  }

  /** Rows stay, with their event, channel and target. */
  ghost predicate Persists(a: Table, b: Table) {
    forall d | d in a ::
      d in b && b[d].event == a[d].event && b[d].channel == a[d].channel && b[d].target == a[d].target
  }

  lemma EffectPersists(rows: Table, st: Statement)
    requires UniqueTargets(rows)
    ensures Persists(rows, Effect(rows, st)) && UniqueTargets(Effect(rows, st))
  {
  }

  lemma DeliveryPersists(a: Table, b: Table, event: Id, channel: Channel, target: Id)
    requires Persists(a, b) && HasDelivery(a, event, channel, target)
    ensures HasDelivery(b, event, channel, target)
  {
    var d :| d in a && a[d].event == event && a[d].channel == channel && a[d].target == target;
    assert b[d].event == event;
  }

  /** What is asked of a dispatcher's own mark: it claimed the row and has not delivered it yet. */
  predicate Proper(l: Ledger, st: Statement, own: bool) {
    own && st.DeliverRow? ==> st.id in l.mine.claims && st.id !in l.mine.delivered
  }

  lemma StatementKeys(before: Table, rows: Table, l: Ledger, st: Statement, own: bool)
    requires KeysAccounted(before, rows, l)
    ensures KeysAccounted(before, Effect(rows, st), Recorded(l, rows, st, own))
  {
  }

  lemma StatementAttempts(before: Table, rows: Table, l: Ledger, st: Statement, own: bool)
    requires KeysAccounted(before, rows, l) && AttemptsAccounted(before, rows, l)
    ensures AttemptsAccounted(before, Effect(rows, st), Recorded(l, rows, st, own))
  {
    var after, m := Effect(rows, st), Recorded(l, rows, st, own);
    if Claims(rows, st) {
      assert multiset(l.mine.claims + [st.id]) == multiset(l.mine.claims) + multiset{st.id};
      assert multiset(l.theirs.claims + [st.id]) == multiset(l.theirs.claims) + multiset{st.id};
    }
    forall d | d in after
      ensures after[d].attempts == AttemptsIn(before, d) + multiset(m.mine.claims)[d] + multiset(m.theirs.claims)[d]
    {
      if d !in rows {
        assert d !in l.mine.claims && d !in l.theirs.claims;
        assert multiset(l.mine.claims)[d] == 0 && multiset(l.theirs.claims)[d] == 0;
      }
    }
  }

  lemma StatementDeliveries(before: Table, rows: Table, l: Ledger, st: Statement, own: bool)
    requires KeysAccounted(before, rows, l) && DeliveriesAccounted(before, rows, l)
    ensures DeliveriesAccounted(before, Effect(rows, st), Recorded(l, rows, st, own))
  {
  }

  lemma StatementOwnWork(before: Table, rows: Table, l: Ledger, st: Statement, own: bool)
    requires KeysAccounted(before, rows, l) && DeliveriesAccounted(before, rows, l) && OwnWork(before, l)
    requires Proper(l, st, own)
    ensures OwnWork(before, Recorded(l, rows, st, own))
  {
  }

  /** Every statement, whoever executes it, keeps the table in step with the ledger. */
  lemma StatementAccounted(before: Table, rows: Table, l: Ledger, st: Statement, own: bool)
    requires Accounted(before, rows, l) && Proper(l, st, own)
    ensures Accounted(before, Effect(rows, st), Recorded(l, rows, st, own))
  {
    StatementKeys(before, rows, l, st, own);
    StatementAttempts(before, rows, l, st, own);
    StatementDeliveries(before, rows, l, st, own);
    StatementOwnWork(before, rows, l, st, own);
  }

  // ---------------------------------------------------------------------------------------
  // The accounting in numbers

  ghost function DeliveredIds(rows: Table): set<Id> {
    set d | d in rows && rows[d].status == Delivered
  }

  lemma {:induction false} AddDistinct(s: set<Id>, ids: seq<Id>, t: set<Id>)
    requires Distinct(ids) && forall d | d in ids :: d !in s
    requires forall d :: d in t <==> d in s || d in ids
    ensures |t| == |s| + |ids|
    decreases |ids|
  {
    if ids == [] {
      assert forall d :: d in t <==> d in s;
      assert t == s;
    } else {
      var n := |ids| - 1;
      var last := ids[n];
      assert last in ids;
      assert forall d :: d in ids <==> d == last || d in ids[..n];
      AddDistinct(s, ids[..n], t - {last});
    }
  }

  /** Left alone, the number of delivered rows grows by the number of deliveries. */
  lemma QuietDeliveries(before: Table, rows: Table, l: Ledger)
    requires Accounted(before, rows, l) && l.theirs.delivered == []
    ensures |DeliveredIds(rows)| == |DeliveredIds(before)| + |l.mine.delivered|
  {
    forall d ensures d in DeliveredIds(rows) <==> d in DeliveredIds(before) || d in l.mine.delivered {
      assert d in DeliveredIds(rows) <==> DeliveredIn(rows, d);
      assert d in DeliveredIds(before) <==> DeliveredIn(before, d);
    }
    AddDistinct(DeliveredIds(before), l.mine.delivered, DeliveredIds(rows));
  }

  // ---------------------------------------------------------------------------------------
  // The dispatcher

  ghost predicate AllDelivered(rows: Table, events: seq<Event>, channel: Channel, target: Id) {
    forall e | e in events :: HasDelivery(rows, e.id, channel, target)
  }

  lemma AllDeliveredNext(a: Table, b: Table, events: seq<Event>, i: nat, channel: Channel, target: Id)
    requires i < |events| && Persists(a, b) && AllDelivered(a, events[..i], channel, target)
    requires HasDelivery(b, events[i].id, channel, target)
    ensures AllDelivered(b, events[..i + 1], channel, target)
  {
    forall e | e in events[..i + 1] ensures HasDelivery(b, e.id, channel, target) {
      assert e == events[i] || e in events[..i];
      if e in events[..i] {
        DeliveryPersists(a, b, e.id, channel, target);
      }
    }
  }

  /** What one turn of the loop did. */
  datatype Turn = ClaimError | NothingLeft | Claimed(id: Id, sent: bool, recorded: bool)

  /** The summary after a claim was sent and its mark recorded or not. */
  function AfterTurn(s: Summary, id: Id, sent: bool, recorded: bool): Summary {
    s.(attempted := s.attempted + 1,
       delivered := s.delivered + (if sent && recorded then 1 else 0),
       failed := s.failed + (if sent then 0 else 1),
       failures := s.failures + if sent then [] else [id])
  }

  /** The table after an undisturbed turn. */
  function Settled(rows: Table, turn: Turn, lease: int, at: int, next: int): Table {
    if !turn.Claimed? then rows
    else Marked(Held(rows, Some(turn.id), lease), turn.id, turn.sent, turn.recorded, at, next)
  }

  /** What an undisturbed turn does to the table. */
  ghost predicate Turned(
    rows: Table, after: Table, turn: Turn, channel: Channel, target: Id, claimAt: int, at: int, retryAfter: int)
  {
    && after == Settled(rows, turn, claimAt + retryAfter, at, at + retryAfter)
    && (turn.Claimed? ==> FirstEligible(rows, turn.id, channel, target, claimAt))
  }

  lemma TurnSettles(
    rows: Table, held: Table, after: Table, turn: Turn, channel: Channel, target: Id, claimAt: int, at: int,
    retryAfter: int)
    requires turn.Claimed? && FirstEligible(rows, turn.id, channel, target, claimAt)
    requires held == Held(rows, Some(turn.id), claimAt + retryAfter)
    requires after == Marked(held, turn.id, turn.sent, turn.recorded, at, at + retryAfter)
    ensures Turned(rows, after, turn, channel, target, claimAt, at, retryAfter)
  {
  }

  function Held(rows: Table, claimed: Option<Id>, lease: int): Table {
    if claimed.Some? && claimed.value in rows then Claim(rows, claimed.value, lease) else rows
  }

  function Marked(rows: Table, id: Id, sent: bool, recorded: bool, at: int, next: int): Table {
    if !recorded then rows else if sent then MarkDelivered(rows, id, at) else MarkFailed(rows, id, next)
  }

  function OneIf(b: bool, d: Id): seq<Id> {
    if b then [d] else []
  }

  class DeliveryStore {
    var rows: Table
    var nextId: Id
    const events: seq<Event>

    ghost predicate Valid()
      reads this
    {
      && UniqueTargets(rows) && Ascending(events)
      && (forall d | d in rows :: d < nextId)
    }

    constructor (events: seq<Event>)
      requires Ascending(events)
      ensures Valid() && rows == map[] && this.events == events
    {
      this.events := events;
      rows, nextId := map[], 0;
    }

    method OtherOne(st: Statement, ghost before: Table, ghost l: Ledger) returns (ghost m: Ledger)
      requires Valid() && Accounted(before, rows, l)
      modifies this
      ensures Valid() && Accounted(before, rows, m) && m.mine == l.mine && Persists(old(rows), rows)
    {
      StatementAccounted(before, rows, l, st, false);
      EffectPersists(rows, st);
      m := Recorded(l, rows, st, false);
      rows := Effect(rows, st);
      if st.InsertRow? && st.id >= nextId {
        nextId := st.id + 1;
      }
    }

    /** Other dispatchers' statements. */
    method Others(others: seq<Statement>, ghost before: Table, ghost l: Ledger) returns (ghost m: Ledger)
      requires Valid() && Accounted(before, rows, l)
      modifies this
      ensures Valid() && Accounted(before, rows, m) && m.mine == l.mine && Persists(old(rows), rows)
      ensures others == [] ==> rows == old(rows) && m == l
    {
      m := l;
      for i := 0 to |others|
        invariant Valid() && Accounted(before, rows, m) && m.mine == l.mine && Persists(old(rows), rows)
        invariant i == 0 ==> rows == old(rows) && m == l
      {
        m := OtherOne(others[i], before, m);
      }
    }

    /** InsertAlertDelivery with a fresh id; false stands for the ON CONFLICT case. */
    method InsertOne(event: Id, channel: Channel, target: Id, at: int, ghost before: Table, ghost l: Ledger)
      returns (inserted: bool, ghost m: Ledger)
      requires Valid() && Accounted(before, rows, l)
      modifies this
      ensures Valid() && Accounted(before, rows, m) && Persists(old(rows), rows)
      ensures HasDelivery(rows, event, channel, target)
      ensures inserted <==> !HasDelivery(old(rows), event, channel, target)
      ensures m == l.(mine := l.mine.(inserted := l.mine.inserted + OneIf(inserted, old(nextId))))
    {
      var st := InsertRow(nextId, event, channel, target, at);
      StatementAccounted(before, rows, l, st, true);
      EffectPersists(rows, st);
      m := Recorded(l, rows, st, true);
      inserted := !HasDelivery(rows, event, channel, target);
      rows := Effect(rows, st);
      nextId := nextId + 1;
      if inserted {
        assert rows[st.id].event == event;
      } else {
        assert l.mine.inserted + [] == l.mine.inserted;
      }
    }

    /** One insert of EnqueueAlertDeliveries, after what others did meanwhile. */
    method EnqueueOne(
      e: Event, channel: Channel, target: Id, at: int, others: seq<Statement>, fails: bool,
      ghost before: Table, ghost l: Ledger) returns (inserted: bool, ghost m: Ledger)
      requires Valid() && Accounted(before, rows, l)
      modifies this
      ensures Valid() && Accounted(before, rows, m) && Persists(old(rows), rows)
      ensures |m.mine.inserted| == |l.mine.inserted| + (if inserted then 1 else 0)
      ensures m.mine == l.mine.(inserted := m.mine.inserted)
      ensures if fails then !inserted else HasDelivery(rows, e.id, channel, target)
    {
      inserted := false;
      m := Others(others, before, l);
      if !fails {
        inserted, m := InsertOne(e.id, channel, target, at, before, m);
      }
    }

    /**
     EnqueueAlertDeliveries: select, then one guarded insert per event.  An insert that fails ends the call
     with the rows inserted so far.
     */
    method Enqueue(
      channel: Channel, target: Id, limit: nat, at: int, others: nat -> seq<Statement>, fails: nat -> bool,
      ghost before: Table, ghost l: Ledger) returns (enqueued: nat, ok: bool, ghost m: Ledger)
      requires Valid() && Accounted(before, rows, l)
      modifies this
      ensures Valid() && Accounted(before, rows, m)
      ensures |m.mine.inserted| == |l.mine.inserted| + enqueued && enqueued <= limit
      ensures m.mine == l.mine.(inserted := m.mine.inserted)
      ensures ok ==> forall e | e in UndeliveredEvents(old(rows), events, channel, target, limit) ::
                HasDelivery(rows, e.id, channel, target)
      ensures !ok ==> exists i: nat :: fails(i)
    {
      var selected := UndeliveredEvents(rows, events, channel, target, limit);
      enqueued, ok, m := 0, true, l;
      for i := 0 to |selected|
        invariant Valid() && Accounted(before, rows, m)
        invariant |m.mine.inserted| == |l.mine.inserted| + enqueued && enqueued <= i
        invariant m.mine == l.mine.(inserted := m.mine.inserted)
        invariant AllDelivered(rows, selected[..i], channel, target)
      {
        ghost var held := rows;
        var inserted;
        inserted, m := EnqueueOne(selected[i], channel, target, at, others(i), fails(i), before, m);
        if fails(i) {
          ok := false;
          return;
        }
        enqueued := enqueued + if inserted then 1 else 0;
        AllDeliveredNext(held, rows, selected, i, channel, target);
      }
      assert selected[..|selected|] == selected;
    }

    /** ClaimPendingAlertDeliveries with a limit of one. */
    method ClaimFirst(channel: Channel, target: Id, now: int, leaseUntil: int) returns (claimed: Option<Id>)
      requires Valid()
      modifies this`rows
      ensures Valid()
      ensures claimed.None? ==> rows == old(rows) && NothingToClaim(rows, channel, target, now)
      ensures claimed.None? ==> forall d | d in rows ::
                !(rows[d].channel == channel && rows[d].target == target && rows[d].status != Delivered
                  && Due(rows[d], now))
      ensures claimed.Some? ==>
                && claimed.value in old(rows) && var row := old(rows)[claimed.value];
                && row.channel == channel && row.target == target && row.status != Delivered && Due(row, now)
                && forall d | d in old(rows) && old(rows)[d].channel == channel && old(rows)[d].target == target
                              && old(rows)[d].status != Delivered && Due(old(rows)[d], now) ::
                     row.createdAt < old(rows)[d].createdAt
                     || (row.createdAt == old(rows)[d].createdAt && claimed.value <= d)
      ensures claimed.Some? ==>
                FirstEligible(old(rows), claimed.value, channel, target, now)
                && rows == Effect(old(rows), ClaimRow(claimed.value, channel, target, now, leaseUntil))
    {
      if d :| d in rows && Eligible(rows, d, channel, target, now) {
        FirstEligibleExists(rows, rows.Keys, channel, target, now, d);
        var first :| first in rows && FirstEligible(rows, first, channel, target, now);
        rows := Claim(rows, first, leaseUntil);
        claimed := Some(first);
      } else {
        claimed := None;
      }
    }

    /** MarkAlertDeliveryDelivered or MarkAlertDeliveryFailed; false stands for storage.ErrNotFound. */
    method Mark(id: Id, sent: bool, attemptedAt: int, retryAfter: int) returns (found: bool)
      requires Valid()
      modifies this`rows
      ensures Valid()
      ensures rows == Effect(
                old(rows), if sent then DeliverRow(id, attemptedAt) else FailRow(id, attemptedAt + retryAfter))
      ensures found <==> id in old(rows) && (sent || old(rows)[id].status != Delivered)
    {
      found := id in rows && (sent || rows[id].status != Delivered);
      rows := if sent then MarkDelivered(rows, id, attemptedAt) else MarkFailed(rows, id, attemptedAt + retryAfter);
    }

    /** One turn of the loop: claim, send, mark, with what others do before each statement. */
    method Attempt(
      channel: Channel, target: Id, retryAfter: int, claimAt: int, attemptedAt: int, sendOk: bool,
      claimFails: bool, markFails: bool, first: seq<Statement>, second: seq<Statement>,
      ghost before: Table, ghost l: Ledger) returns (turn: Turn, ghost m: Ledger, ghost seen: Table)
      requires Valid() && Accounted(before, rows, l)
      modifies this
      ensures Valid() && Accounted(before, rows, m)
      ensures turn.ClaimError? <==> claimFails
      ensures turn.NothingLeft? ==> NothingToClaim(rows, channel, target, claimAt)
      ensures !turn.Claimed? ==> m.mine == l.mine
      ensures turn.Claimed? ==>
                && FirstEligible(seen, turn.id, channel, target, claimAt) && turn.sent == sendOk
                && (turn.recorded ==> !markFails) && (sendOk && !markFails ==> turn.recorded)
                && m.mine == l.mine.(claims := l.mine.claims + [turn.id],
                                     delivered := l.mine.delivered + OneIf(sendOk && turn.recorded, turn.id))
      ensures turn.Claimed? && !markFails && second == [] ==> turn.recorded
      ensures first == [] && second == [] ==>
                Turned(old(rows), rows, turn, channel, target, claimAt, attemptedAt, retryAfter)
    {
      var claimed;
      claimed, m, seen := ClaimNext(channel, target, claimAt, claimAt + retryAfter, claimFails, first, before, l);
      turn := if claimFails then ClaimError else NothingLeft;
      if claimed.Some? {
        ghost var held := rows;
        var recorded;
        recorded, m := MarkOutcome(claimed.value, sendOk, attemptedAt, retryAfter, markFails, second, before, m);
        turn := Claimed(claimed.value, sendOk, recorded);
        if second == [] {
          TurnSettles(seen, held, rows, turn, channel, target, claimAt, attemptedAt, retryAfter);
        }
      }
    }

    /** The start of a turn: others' statements, then the claim. */
    method ClaimNext(
      channel: Channel, target: Id, claimAt: int, lease: int, fails: bool, others: seq<Statement>,
      ghost before: Table, ghost l: Ledger) returns (claimed: Option<Id>, ghost m: Ledger, ghost seen: Table)
      requires Valid() && Accounted(before, rows, l)
      modifies this
      ensures Valid() && Accounted(before, rows, m)
      ensures claimed.None? ==> m.mine == l.mine && (fails || NothingToClaim(rows, channel, target, claimAt))
      ensures claimed.Some? ==>
                && !fails && FirstEligible(seen, claimed.value, channel, target, claimAt)
                && m.mine == l.mine.(claims := l.mine.claims + [claimed.value])
                && claimed.value !in m.mine.delivered && claimed.value in rows
                && rows[claimed.value].status != Delivered
      ensures others == [] ==> seen == old(rows)
      ensures rows == Held(seen, claimed, lease)
    {
      m := Others(others, before, l);
      seen := rows;
      if fails {
        return None, m, seen;
      }
      claimed := ClaimFirst(channel, target, claimAt, lease);
      if claimed.Some? {
        ghost var st := ClaimRow(claimed.value, channel, target, claimAt, lease);
        ClaimedIsProper(before, seen, m, st);
        m := Recorded(m, seen, st, true);
      }
    }

    /** The end of a turn: others' statements, then the mark. */
    method MarkOutcome(
      id: Id, sendOk: bool, attemptedAt: int, retryAfter: int, markFails: bool, others: seq<Statement>,
      ghost before: Table, ghost l: Ledger) returns (recorded: bool, ghost m: Ledger)
      requires Valid() && Accounted(before, rows, l) && id in l.mine.claims && id !in l.mine.delivered && id in rows
      modifies this
      ensures Valid() && Accounted(before, rows, m)
      ensures (recorded ==> !markFails) && (sendOk && !markFails ==> recorded)
      ensures others == [] && !markFails && old(rows)[id].status != Delivered ==> recorded
      ensures others == [] ==>
                rows == Marked(old(rows), id, sendOk, !markFails, attemptedAt, attemptedAt + retryAfter)
      ensures m.mine == l.mine.(delivered := l.mine.delivered + OneIf(sendOk && recorded, id))
    {
      m := Others(others, before, l);
      if markFails {
        return false, m;
      }
      ghost var st := if sendOk then DeliverRow(id, attemptedAt) else FailRow(id, attemptedAt + retryAfter);
      StatementAccounted(before, rows, m, st, true);
      m := Recorded(m, rows, st, true);
      recorded := Mark(id, sendOk, attemptedAt, retryAfter);
    }

    /**
     Deliver.  The ledger says what this dispatcher and the others did; the table followed it, and the summary
     counts this dispatcher's part: its inserts, its claims and the deliveries it recorded.  A run that stops
     early without an error has found nothing left to claim.
     */
    method Deliver(
      channel: Channel, target: Id, limit: nat, retryAfter: int, now: nat -> int, sends: nat -> bool,
      selectFails: bool, insertFails: nat -> bool, storeFails: nat -> bool,
      during: nat -> seq<Statement>, others: nat -> seq<Statement>)
      returns (summary: Summary, outcome: Outcome, ghost l: Ledger)
      requires Valid()
      modifies this
      ensures Valid() && Accounted(old(rows), rows, l)
      ensures Counts(summary, l) || (outcome == StoreError && summary == Summary(0, 0, 0, 0, []) && l.mine.claims == [])
      ensures summary.attempted <= limit && AllSettled(summary, outcome)
      ensures outcome != StoreError && summary.attempted < limit ==>
                exists k :: NothingToClaim(rows, channel, target, now(k))
      ensures Brief(now, retryAfter) && Alone(others) ==> Distinct(l.mine.claims)
      ensures summary.failures == FailedClaims(l.mine.claims, sends)
    {
      ghost var rows0 := rows;
      summary, l := Summary(0, 0, 0, 0, []), NOTHING;
      NothingAccounted(rows);
      if selectFails {
        outcome := StoreError;
        return;
      }
      var enqueued, ok;
      enqueued, ok, l := Enqueue(channel, target, limit, now(0), during, insertFails, rows, l);
      if !ok {
        outcome := StoreError;
        return;
      }
      summary := summary.(enqueued := enqueued);
      summary, outcome, l := Drain(
        channel, target, limit, retryAfter, now, sends, storeFails, others, summary, rows0, l);
    }

    /** The turn whose statements are numbered from `call` on. */
    method TakeTurn(
      channel: Channel, target: Id, retryAfter: int, now: nat -> int, sendOk: bool, storeFails: nat -> bool,
      others: nat -> seq<Statement>, call: nat, ghost before: Table, ghost l: Ledger)
      returns (turn: Turn, ghost m: Ledger)
      requires Valid() && Accounted(before, rows, l)
      modifies this
      ensures Valid() && Accounted(before, rows, m)
      ensures turn.NothingLeft? ==> NothingToClaim(rows, channel, target, now(call + 1))
      ensures !turn.Claimed? ==> m.mine == l.mine
      ensures turn.Claimed? ==>
                && turn.sent == sendOk
                && m.mine == l.mine.(claims := l.mine.claims + [turn.id],
                                     delivered := l.mine.delivered + OneIf(turn.sent && turn.recorded, turn.id))
      ensures Brief(now, retryAfter) && Alone(others) && Unrepeated(old(rows), l, now) ==> Unrepeated(rows, m, now)
    {
      ghost var seen;
      turn, m, seen := Attempt(
        channel, target, retryAfter, now(call + 1), now(call + 2), sendOk, storeFails(call), storeFails(call + 1),
        others(call), others(call + 1), before, l);
      if Brief(now, retryAfter) && Alone(others) && Unrepeated(old(rows), l, now) {
        NothingRepeated(old(rows), rows, l, m, now, call, retryAfter, channel, target, turn);
      }
    }

    /** The loop of Deliver. */
    method Drain(
      channel: Channel, target: Id, limit: nat, retryAfter: int, now: nat -> int, sends: nat -> bool,
      storeFails: nat -> bool, others: nat -> seq<Statement>, start: Summary, ghost before: Table, ghost l: Ledger)
      returns (summary: Summary, outcome: Outcome, ghost m: Ledger)
      requires Valid() && Accounted(before, rows, l) && l.mine.claims == [] && l.mine.delivered == []
      requires start == Summary(|l.mine.inserted|, 0, 0, 0, [])
      modifies this
      ensures Valid() && Accounted(before, rows, m) && Counts(summary, m)
      ensures summary.attempted <= limit && AllSettled(summary, outcome)
      ensures Brief(now, retryAfter) && Alone(others) ==> Distinct(m.mine.claims)
      ensures summary.failures == FailedClaims(m.mine.claims, sends)
      ensures outcome != StoreError && summary.attempted < limit ==>
                exists k :: NothingToClaim(rows, channel, target, now(k))
    {
      summary, m := start, l;
      var remaining, drained, call := limit, false, 0;
      while remaining > 0 && !drained
        invariant Valid() && Accounted(before, rows, m) && Books(summary, m, sends)
        invariant summary.attempted + remaining == limit && call == 2 * summary.attempted
        invariant Brief(now, retryAfter) && Alone(others) ==> Unrepeated(rows, m, now)
        invariant drained ==> exists k :: NothingToClaim(rows, channel, target, now(k))
        decreases remaining, !drained
      {
        var turn;
        ghost var held := m;
        turn, m := TakeTurn(channel, target, retryAfter, now, sends(call), storeFails, others, call, before, m);
        match turn
        case ClaimError =>
          outcome := StoreError;
          return;
        case NothingLeft =>
          drained := true;
        case Claimed(id, sent, recorded) =>
          BooksNext(summary, held, m, turn, sends);
          summary := AfterTurn(summary, id, sent, recorded);
          if !recorded {
            outcome := StoreError;
            return;
          }
          call, remaining := call + 2, remaining - 1;
      }
      outcome := if summary.failed > 0 then SomeFailed else Ok;
    }
  }

  /** The claims whose send failed, in order; every turn takes two store calls. */
  function FailedClaims(claims: seq<Id>, sends: nat -> bool): seq<Id> {
    if claims == [] then [] else
      var n := |claims| - 1;
      FailedClaims(claims[..n], sends) + if sends(2 * n) then [] else [claims[n]]
  }

  lemma FailedNext(claims: seq<Id>, id: Id, sends: nat -> bool)
    ensures FailedClaims(claims + [id], sends)
            == FailedClaims(claims, sends) + if sends(2 * |claims|) then [] else [id]
  {
    assert (claims + [id])[..|claims|] == claims;
  }

  /** All clock readings lie within the retry time of each other. */
  ghost predicate Brief(now: nat -> int, retryAfter: int) {
    forall i: nat, j: nat :: now(j) < now(i) + retryAfter
  }

  ghost predicate Alone(others: nat -> seq<Statement>) {
    forall k: nat :: others(k) == []
  }

  /** Every claimed row is delivered or waits beyond every clock reading. */
  ghost predicate Parked(rows: Table, claims: seq<Id>, now: nat -> int) {
    forall d | d in claims :: d in rows && (rows[d].status == Delivered || forall k: nat :: !Due(rows[d], now(k)))
  }

  ghost predicate Unrepeated(rows: Table, l: Ledger, now: nat -> int) {
    Distinct(l.mine.claims) && Parked(rows, l.mine.claims, now)
  }

  lemma TurnParks(
    rows: Table, claims: seq<Id>, now: nat -> int, i: nat, j: nat, retryAfter: int, channel: Channel, target: Id,
    turn: Turn)
    requires Brief(now, retryAfter) && Distinct(claims) && Parked(rows, claims, now)
    requires turn.Claimed? && FirstEligible(rows, turn.id, channel, target, now(i))
    ensures Distinct(claims + [turn.id])
    ensures Parked(Settled(rows, turn, now(i) + retryAfter, now(j), now(j) + retryAfter), claims + [turn.id], now)
  {
    assert turn.id !in claims;
    var after := Settled(rows, turn, now(i) + retryAfter, now(j), now(j) + retryAfter);
    forall d | d in claims + [turn.id]
      ensures d in after && (after[d].status == Delivered || forall k: nat :: !Due(after[d], now(k)))
    {
      if d != turn.id {
        assert d in claims && after[d] == rows[d];
      }
    }
  }

  lemma NothingRepeated(
    rows: Table, after: Table, l: Ledger, m: Ledger, now: nat -> int, call: nat, retryAfter: int,
    channel: Channel, target: Id, turn: Turn)
    requires Brief(now, retryAfter) && Unrepeated(rows, l, now)
    requires Turned(rows, after, turn, channel, target, now(call + 1), now(call + 2), retryAfter)
    requires m.mine.claims == if turn.Claimed? then l.mine.claims + [turn.id] else l.mine.claims
    ensures Unrepeated(after, m, now)
  {
    if turn.Claimed? {
      TurnParks(rows, l.mine.claims, now, call + 1, call + 2, retryAfter, channel, target, turn);
    }
  }

  /** The summary counts this dispatcher's part of the ledger. */
  predicate Counts(s: Summary, l: Ledger) {
    && s.enqueued == |l.mine.inserted| && s.attempted == |l.mine.claims| && s.delivered == |l.mine.delivered|
    && s.failed == |s.failures|
  }

  /** ... every attempt was delivered or failed, and the failures are the claims whose send failed. */
  ghost predicate Books(s: Summary, l: Ledger, sends: nat -> bool) {
    && Counts(s, l) && s.attempted == s.delivered + s.failed && s.failures == FailedClaims(l.mine.claims, sends)
  }

  lemma BooksNext(s: Summary, l: Ledger, m: Ledger, turn: Turn, sends: nat -> bool)
    requires Books(s, l, sends) && turn.Claimed? && turn.sent == sends(2 * s.attempted)
    requires m.mine == l.mine.(claims := l.mine.claims + [turn.id],
                               delivered := l.mine.delivered + OneIf(turn.sent && turn.recorded, turn.id))
    ensures var r := AfterTurn(s, turn.id, turn.sent, turn.recorded);
            && Counts(r, m) && r.failures == FailedClaims(m.mine.claims, sends)
            && (turn.recorded ==> Books(r, m, sends)) && AllSettled(r, StoreError)
  {
    FailedNext(l.mine.claims, turn.id, sends);
  }

  /** Every attempt was delivered or failed, but for one whose mark the store refused; the outcome says which. */
  predicate AllSettled(s: Summary, outcome: Outcome) {
    && (s.attempted == s.delivered + s.failed
        || (outcome == StoreError && s.attempted == s.delivered + s.failed + 1))
    && (outcome == Ok ==> s.failed == 0)
    && (outcome == SomeFailed ==> s.failed > 0)
  }

  lemma NothingAccounted(rows: Table)
    ensures Accounted(rows, rows, NOTHING)
  {
  }

  /** A claimed row was not delivered, so this dispatcher has not delivered it. */
  lemma ClaimedIsProper(before: Table, rows: Table, l: Ledger, st: Statement)
    requires Accounted(before, rows, l) && UniqueTargets(rows) && Claims(rows, st)
    ensures Accounted(before, Effect(rows, st), Recorded(l, rows, st, true))
    ensures st.id in rows && st.id !in l.mine.delivered && Effect(rows, st)[st.id].status != Delivered
  {
    StatementAccounted(before, rows, l, st, true);
    assert !DeliveredIn(rows, st.id);
  }
}
