/**
 The two one-time login code stores (internal/api/codestore.go, internal/db/cli_login_code.sql.go):
 a map in memory and a table keyed by the code's hash.  Times are seconds on one clock.
 */
module CodeStore {
  import opened Options

  type Code = string
  type User = string

  const TTL := 60

  datatype Call = Issue(code: Code, user: User, now: int) | Redeem(code: Code, now: int)

  // ---------------------------------------------------------------------------------------
  // The stores' states

  datatype Entry = Entry(user: User, expires: int)
  type Memory = map<Code, Entry>

  function Swept(m: Memory, now: int): Memory {
    map c | c in m && now <= m[c].expires :: m[c]
  }

  function MemoryNext(m: Memory, call: Call): Memory {
    match call
    case Issue(code, user, now) => Swept(m, now)[code := Entry(user, now + TTL)]
    case Redeem(code, _) => m - {code}
  }

  function MemoryAnswer(m: Memory, code: Code, now: int): Option<User> {
    if code in m && now <= m[code].expires then Some(m[code].user) else None
  }

  datatype Row = Row(user: User, created: int, expires: int, redeemed: Option<int>)
  type Table = map<string, Row>
  type Hash = Code -> string

  ghost predicate Injective(hash: Hash) {
    forall a, b | hash(a) == hash(b) :: a == b
  }

  function Purged(t: Table, now: int): Table {
    map h | h in t && now <= t[h].expires :: t[h]
  }

  /** The WHERE clause of RedeemCLILoginCode. */
  predicate Redeemable(t: Table, h: string, now: int) {
    h in t && t[h].redeemed.None? && t[h].expires >= now
  }

  function TableNext(t: Table, hash: Hash, call: Call): Table {
    match call
    case Issue(code, user, now) => Purged(t, now)[hash(code) := Row(user, now, now + TTL, None)]
    case Redeem(code, now) =>
      if Redeemable(t, hash(code), now) then t[hash(code) := t[hash(code)].(redeemed := Some(now))] else t
  }

  function TableAnswer(t: Table, hash: Hash, code: Code, now: int): Option<User> {
    if Redeemable(t, hash(code), now) then Some(t[hash(code)].user) else None
  }

  // ---------------------------------------------------------------------------------------
  // What a redeem should answer, from the calls alone

  /** The issue of this code that no redeem has followed. */
  function Live(past: seq<Call>, code: Code): Option<Call> {
    if past == [] then None
    else if past[|past| - 1].code == code then
      if past[|past| - 1].Issue? then Some(past[|past| - 1]) else None
    else Live(past[..|past| - 1], code)
  }

  /** The user the code was issued to, while it is unredeemed and at most TTL old. */
  function Expected(past: seq<Call>, code: Code, now: int): Option<User> {
    var live := Live(past, code);
    if live.Some? && live.value.Issue? && now <= live.value.now + TTL then Some(live.value.user) else None
  }

  /** The clock never goes back and a code is issued once. */
  predicate Valid(calls: seq<Call>) {
    && (forall i, j | 0 <= i < j < |calls| :: calls[i].now <= calls[j].now)
    && (forall i, j | 0 <= i < j < |calls| && calls[i].Issue? && calls[j].Issue? :: calls[i].code != calls[j].code)
  }

  function MemoryAfter(calls: seq<Call>): Memory {
    if calls == [] then map[] else MemoryNext(MemoryAfter(calls[..|calls| - 1]), calls[|calls| - 1])
  }

  function TableAfter(calls: seq<Call>, hash: Hash): Table {
    if calls == [] then map[] else TableNext(TableAfter(calls[..|calls| - 1], hash), hash, calls[|calls| - 1])
  }

  /** The last clock reading. */
  predicate NotBefore(calls: seq<Call>, now: int) {
    forall i | 0 <= i < |calls| :: calls[i].now <= now
  }

  // ---------------------------------------------------------------------------------------
  // Both stores answer as expected

  lemma {:induction false} LiveIsIssue(past: seq<Call>, code: Code)
    ensures Live(past, code).Some? ==>
              var c := Live(past, code).value; c.Issue? && c.code == code && c in past
    decreases |past|
  {
    if past != [] {
      LiveIsIssue(past[..|past| - 1], code);
    }
  }

  /** The memory holds a live code's entry as long as it may still succeed, and nothing else under that code. */
  ghost predicate MemoryMatches(m: Memory, past: seq<Call>, now: int) {
    && (forall c | c in m :: Live(past, c).Some? && Live(past, c).value == Issue(c, m[c].user, m[c].expires - TTL))
    && (forall c: Code | Live(past, c).Some? && now <= Live(past, c).value.now + TTL :: c in m)
  }

  lemma MemoryStep(m: Memory, past: seq<Call>, call: Call, now: int)
    requires MemoryMatches(m, past, now) && now <= call.now
    ensures MemoryMatches(MemoryNext(m, call), past + [call], call.now)
  {
    var next := past + [call];
    assert next[..|past|] == past;
    forall c: Code
      ensures Live(next, c) == if c == call.code then (if call.Issue? then Some(call) else None) else Live(past, c)
    {
    }
  }

  lemma {:induction false} MemoryRun(calls: seq<Call>, now: int)
    requires Valid(calls) && NotBefore(calls, now)
    ensures MemoryMatches(MemoryAfter(calls), calls, now)
    decreases |calls|
  {
    if calls != [] {
      var n := |calls| - 1;
      assert calls == calls[..n] + [calls[n]];
      MemoryRun(calls[..n], calls[n].now);
      MemoryStep(MemoryAfter(calls[..n]), calls[..n], calls[n], calls[n].now);
    }
  }

  lemma {:induction false} MemoryAnswersAsExpected(past: seq<Call>, code: Code, now: int)
    requires Valid(past) && NotBefore(past, now)
    ensures MemoryAnswer(MemoryAfter(past), code, now) == Expected(past, code, now)
  {
    MemoryRun(past, now);
    LiveIsIssue(past, code);
  }

  /** An unredeemed, unexpired row is the row of a live code; expired and redeemed rows do not matter. */
  ghost predicate TableMatches(t: Table, hash: Hash, past: seq<Call>, now: int) {
    && (forall c: Code | Redeemable(t, hash(c), now) ::
          Live(past, c).Some? && Live(past, c).value == Issue(c, t[hash(c)].user, t[hash(c)].expires - TTL))
    && (forall c: Code | Live(past, c).Some? && now <= Live(past, c).value.now + TTL :: Redeemable(t, hash(c), now))
  }

  lemma TableStep(t: Table, hash: Hash, past: seq<Call>, call: Call, now: int)
    requires Injective(hash) && TableMatches(t, hash, past, call.now) && call.now <= now
    ensures TableMatches(TableNext(t, hash, call), hash, past + [call], now)
  {
    var u, next := TableNext(t, hash, call), past + [call];
    assert next[..|past|] == past;
    forall c: Code
      ensures Redeemable(u, hash(c), now)
              <==> if c == call.code then call.Issue? && now <= call.now + TTL else Redeemable(t, hash(c), now)
      ensures c != call.code && Redeemable(t, hash(c), now) ==>
          u[hash(c)] == t[hash(c)] && Redeemable(t, hash(c), call.now)
      ensures Live(next, c) == if c == call.code then (if call.Issue? then Some(call) else None) else Live(past, c)
    {
      assert c != call.code ==> hash(c) != hash(call.code);
    }
  }

  lemma {:induction false} TableRun(calls: seq<Call>, hash: Hash, now: int)
    requires Injective(hash) && Valid(calls) && NotBefore(calls, now)
    ensures TableMatches(TableAfter(calls, hash), hash, calls, now)
    decreases |calls|
  {
    if calls != [] {
      var n := |calls| - 1;
      assert calls == calls[..n] + [calls[n]];
      TableRun(calls[..n], hash, calls[n].now);
      TableStep(TableAfter(calls[..n], hash), hash, calls[..n], calls[n], now);
    }
  }

  /** For every history of calls, the two stores give the same answer to the next redeem. */
  lemma {:induction false} StoresAgree(past: seq<Call>, hash: Hash, code: Code, now: int)
    requires Injective(hash) && Valid(past) && NotBefore(past, now)
    ensures MemoryAnswer(MemoryAfter(past), code, now) == TableAnswer(TableAfter(past, hash), hash, code, now)
            == Expected(past, code, now)
  {
    MemoryAnswersAsExpected(past, code, now);
    TableRun(past, hash, now);
    LiveIsIssue(past, code);
  }

  // ---------------------------------------------------------------------------------------
  // What the expected answers mean

  /** A success is for the user the code was issued to, at most TTL after the issue. */
  lemma SuccessIsWithinLifetime(past: seq<Call>, code: Code, now: int)
    requires Valid(past) && NotBefore(past, now) && Expected(past, code, now).Some?
    ensures exists k | 0 <= k < |past| ::
              && past[k] == Issue(code, Expected(past, code, now).value, past[k].now)
              && past[k].now <= now <= past[k].now + 60
  {
    LiveIsIssue(past, code);
    var k :| 0 <= k < |past| && past[k] == Live(past, code).value;
  }

  /** After a redeem at position i, an already issued code never lives again. */
  lemma {:induction false} NeverLiveAgain(calls: seq<Call>, issued: nat, i: nat, n: nat)
    requires Valid(calls) && issued < i < n <= |calls|
    requires calls[issued].Issue? && calls[i].Redeem? && calls[issued].code == calls[i].code
    ensures Live(calls[..n], calls[i].code).None?
    decreases n
  {
    assert calls[..n][..n - 1] == calls[..n - 1];
    if i < n - 1 {
      NeverLiveAgain(calls, issued, i, n - 1);
    }
  }

  /** A code that was redeemed successfully is never redeemed successfully again. */
  lemma AtMostOnce(calls: seq<Call>, i: nat, j: nat)
    requires Valid(calls) && i < j < |calls| && calls[i].Redeem? && calls[j].Redeem? && calls[i].code == calls[j].code
    requires Expected(calls[..i], calls[i].code, calls[i].now).Some?
    ensures Expected(calls[..j], calls[j].code, calls[j].now).None?
  {
    LiveIsIssue(calls[..i], calls[i].code);
    var k :| 0 <= k < |calls[..i]| && calls[..i][k] == Live(calls[..i], calls[i].code).value;
    assert calls[k] == calls[..i][k];
    NeverLiveAgain(calls, k, i, j);
  }

  /** And the first redeem after the issue succeeds exactly while the code has not expired. */
  lemma {:induction false} FirstRedeemSucceedsIff(past: seq<Call>, k: nat, now: int)
    requires k < |past| && past[k].Issue?
    requires forall i | k < i < |past| :: past[i].code != past[k].code
    ensures Expected(past, past[k].code, now) == if now <= past[k].now + 60 then Some(past[k].user) else None
    decreases |past|
  {
    if k < |past| - 1 {
      FirstRedeemSucceedsIff(past[..|past| - 1], k, now);
    }
  }

  // ---------------------------------------------------------------------------------------
  // The stores

  class MemoryStore {
    var entries: Memory

    constructor ()
      ensures entries == map[]
    {
      entries := map[];
    }

    /** sweepLocked, ranging over the map in any order. */
    method Sweep(now: int)
      modifies this
      ensures entries == Swept(old(entries), now)
    {
      var left := entries.Keys;
      while left != {}
        invariant left <= old(entries).Keys
        invariant forall c :: c in entries <==> c in old(entries) && (c in left || now <= old(entries)[c].expires)
        invariant forall c | c in entries :: entries[c] == old(entries)[c]
        decreases |left|
      {
        var code :| code in left;
        if now > entries[code].expires {
          entries := entries - {code};
        }
        left := left - {code};
      }
    }

    /** issueAt: afterwards the map holds only unexpired codes. */
    method IssueAt(code: Code, user: User, now: int)
      modifies this
      ensures entries == MemoryNext(old(entries), Issue(code, user, now))
      ensures forall c | c in entries :: now <= entries[c].expires
    {
      Sweep(now);
      entries := entries[code := Entry(user, now + TTL)];
    }

    /** redeemAt: single use, even if expired. */
    method RedeemAt(code: Code, now: int) returns (user: Option<User>)
      modifies this
      ensures entries == MemoryNext(old(entries), Redeem(code, now))
      ensures user == MemoryAnswer(old(entries), code, now)
    {
      if code !in entries {
        return None;
      }
      var e := entries[code];
      entries := entries - {code};
      if now > e.expires {
        return None;
      }
      return Some(e.user);
    }
  }

  class TableStore {
    var rows: Table
    const hash: Hash

    constructor (hash: Hash)
      ensures rows == map[] && this.hash == hash
    {
      rows, this.hash := map[], hash;
    }

    method DeleteExpired(now: int)
      modifies this
      ensures rows == Purged(old(rows), now)
    {
      rows := map h | h in rows && !(rows[h].expires < now) :: rows[h];
    }

    /** INSERT; the hash is the primary key. */
    method Insert(h: string, user: User, created: int, expires: int) returns (ok: bool)
      modifies this
      ensures ok <==> h !in old(rows)
      ensures rows == if ok then old(rows)[h := Row(user, created, expires, None)] else old(rows)
    {
      if h in rows {
        return false;
      }
      rows := rows[h := Row(user, created, expires, None)];
      return true;
    }

    method Issue(code: Code, user: User, now: int) returns (ok: bool)
      modifies this
      ensures ok <==> hash(code) !in Purged(old(rows), now)
      ensures rows == if ok then TableNext(old(rows), hash, Call.Issue(code, user, now)) else Purged(old(rows), now)
    {
      DeleteExpired(now);
      ok := Insert(hash(code), user, now, now + TTL);
    }

    method Redeem(code: Code, now: int) returns (user: Option<User>)
      modifies this
      ensures rows == TableNext(old(rows), hash, Call.Redeem(code, now))
      ensures user == TableAnswer(old(rows), hash, code, now)
    {
      var h := hash(code);
      if h in rows && rows[h].redeemed.None? && rows[h].expires >= now {
        user := Some(rows[h].user);
        rows := rows[h := rows[h].(redeemed := Some(now))];
      } else {
        user := None;
      }
    }
  }

  /** A code that was never issued before finds its place free in the table. */
  lemma {:induction false} FreshCodeInserts(calls: seq<Call>, hash: Hash, code: Code)
    requires Injective(hash) && forall i | 0 <= i < |calls| && calls[i].Issue? :: calls[i].code != code
    ensures hash(code) !in TableAfter(calls, hash)
    decreases |calls|
  {
    if calls != [] {
      FreshCodeInserts(calls[..|calls| - 1], hash, code);
    }
  }
}
