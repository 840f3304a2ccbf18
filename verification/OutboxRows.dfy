/**
 * Rows of one outbox table and the statements that read and write them:
 * the queries of src/outbox/outbox-event.repository.ts as functions on the table.
 */
module OutboxRows {
  import opened Wrappers
  import opened OutboxRetry

  type Id = nat
  type Tenant = nat
  type Token = nat
  type Instant = int

  datatype Status = Pending | Processing | Published | DeadLetter

  datatype Row = Row(
    id: Id, tenantId: Tenant, createdAt: Instant, deletedAt: Option<Instant>,
    status: Status, attemptCount: nat, nextAttemptAt: Option<Instant>,
    claimedAt: Option<Instant>, claimToken: Option<Token>,
    publishedAt: Option<Instant>, lastError: Option<string>)

  type Table = map<Id, Row>

  datatype Config = Config(
    batchSize: nat, claimTimeoutMs: nat, maxAttempts: int, backoffBaseMs: nat, backoffMaxMs: nat)

  /** A terminal write as the processor sends it. `decidedAt` is the clock reading a retry time
      was computed from; it is not a column. */
  datatype Write =
    | Mark(id: Id, tenantId: Tenant, token: Token, publishedAt: Instant)
    | Failure(id: Id, tenantId: Tenant, token: Token, attemptCount: nat,
              nextAttemptAt: Option<Instant>, isDeadLetter: bool, lastError: string, decidedAt: Instant)

  const LAST_ERROR_WIDTH := 500

  // ----- the claim query

  predicate Due(r: Row, now: Instant, claimTimeoutMs: nat) {
    && r.deletedAt.None?
    && (r.status.Pending? || r.status.Processing?)
    && r.nextAttemptAt.Some? && r.nextAttemptAt.value <= now
    && (r.status.Pending? || r.claimedAt.None? || r.claimedAt.value < now - claimTimeoutMs)
  }

  predicate Candidate(rows: Table, locked: set<Id>, now: Instant, claimTimeoutMs: nat, id: Id) {
    id in rows && id !in locked && Due(rows[id], now, claimTimeoutMs)
  }

  /** ORDER BY next_attempt_at, created_at; rows equal on both may come either way round. */
  predicate NotAfter(a: Row, b: Row) {
    && a.nextAttemptAt.Some? && b.nextAttemptAt.Some?
    && (a.nextAttemptAt.value < b.nextAttemptAt.value
        || (a.nextAttemptAt.value == b.nextAttemptAt.value && a.createdAt <= b.createdAt))
  }

  /** What SELECT ... ORDER BY ... LIMIT ... FOR UPDATE SKIP LOCKED may answer. */
  ghost predicate Selects(rows: Table, locked: set<Id>, now: Instant, cfg: Config, picked: seq<Id>) {
    && |picked| <= cfg.batchSize
    && (forall i | 0 <= i < |picked| :: Candidate(rows, locked, now, cfg.claimTimeoutMs, picked[i]))
    && (forall i, j | 0 <= i < j < |picked| :: picked[i] != picked[j])
    && (forall i, j | 0 <= i < j < |picked| :: NotAfter(rows[picked[i]], rows[picked[j]]))
    && (forall id | id !in picked && Candidate(rows, locked, now, cfg.claimTimeoutMs, id) ::
          && |picked| == cfg.batchSize
          && forall i | 0 <= i < |picked| :: NotAfter(rows[picked[i]], rows[id]))
  }

  // ----- the claim write

  function StampRow(r: Row, token: Token, claimedAt: Instant): Row {
    r.(status := Processing, claimedAt := Some(claimedAt), claimToken := Some(token))
  }

  function Snapshot(rows: Table, picked: seq<Id>): (snaps: seq<Row>)
    requires forall i | 0 <= i < |picked| :: picked[i] in rows
    ensures |snaps| == |picked| && forall i | 0 <= i < |picked| :: snaps[i] == rows[picked[i]]
  {
    seq(|picked|, i requires 0 <= i < |picked| => rows[picked[i]])
  }

  function Stamped(snaps: seq<Row>, token: Token, claimedAt: Instant): (batch: seq<Row>)
    ensures |batch| == |snaps| && forall i | 0 <= i < |snaps| :: batch[i] == StampRow(snaps[i], token, claimedAt)
  {
    seq(|snaps|, i requires 0 <= i < |snaps| => StampRow(snaps[i], token, claimedAt))
  }

  function Ids(batch: seq<Row>): set<Id> {
    set i | 0 <= i < |batch| :: batch[i].id
  }

  /** The table after `save(rows)`: every claimed row stamped, every other row as it was. */
  function ClaimRows(rows: Table, claimed: set<Id>, token: Token, claimedAt: Instant): Table {
    map id | id in rows :: if id in claimed then StampRow(rows[id], token, claimedAt) else rows[id]
  }

  // ----- terminal writes

  predicate Matches(r: Row, w: Write) {
    r.id == w.id && r.tenantId == w.tenantId && r.claimToken == Some(w.token)
  }

  function Truncated(s: string, width: nat): string {
    if |s| <= width then s else s[..width]
  }

  function Patched(r: Row, w: Write): Row {
    match w
    case Mark(_, _, _, at) =>
      r.(status := Published, publishedAt := Some(at), nextAttemptAt := None,
         claimedAt := None, claimToken := None, lastError := None)
    case Failure(_, _, _, n, next, dead, error, _) =>
      r.(status := if dead then DeadLetter else Pending, attemptCount := n,
         nextAttemptAt := if dead then None else next,
         claimedAt := None, claimToken := None, lastError := Some(Truncated(error, LAST_ERROR_WIDTH)))
  }

  predicate Lands(rows: Table, w: Write) {
    w.id in rows && Matches(rows[w.id], w)
  }

  /** UPDATE ... WHERE id = ... AND tenant_id = ... AND claim_token = ... */
  function AfterWrite(rows: Table, w: Write): Table {
    if Lands(rows, w) then rows[w.id := Patched(rows[w.id], w)] else rows
  }

  // ----- what the processor sends after a failed attempt

  type Draw = x: real | 0.0 <= x < 1.0 witness 0.0

  datatype Blame = Blame(permanent: bool, reason: string, now: Instant, draw: Draw)

  function FailureWrite(e: Row, cfg: Config, b: Blame): Write
    requires e.claimToken.Some?
  {
    var attempt := e.attemptCount + 1;
    var dead := b.permanent || attempt >= cfg.maxAttempts;
    Failure(e.id, e.tenantId, e.claimToken.value, attempt,
            if dead then None
            else Some(NextOutboxAttemptAt(attempt, cfg.backoffBaseMs, cfg.backoffMaxMs, b.now, b.draw)),
            dead, b.reason, b.now)
  }

  function MarkWrite(e: Row, now: Instant): Write
    requires e.claimToken.Some?
  {
    Mark(e.id, e.tenantId, e.claimToken.value, now)
  }

  /** The guard at the top of `process`. */
  predicate HasLease(e: Row) {
    e.claimToken.Some? && e.status.Processing?
  }

  // ----- the columns each write sets

  predicate SameIdentity(r: Row, r': Row) {
    r'.id == r.id && r'.tenantId == r.tenantId && r'.createdAt == r.createdAt && r'.deletedAt == r.deletedAt
  }

  /** Leased, and otherwise as it was. */
  predicate Leased(r: Row, r': Row, token: Token, claimedAt: Instant) {
    && SameIdentity(r, r') && r'.status == Processing && r'.claimToken == Some(token) && r'.claimedAt == Some(claimedAt)
    && r'.attemptCount == r.attemptCount && r'.nextAttemptAt == r.nextAttemptAt
    && r'.publishedAt == r.publishedAt && r'.lastError == r.lastError
  }

  predicate Freed(r: Row) {
    r.claimToken == None && r.claimedAt == None
  }

  /** Published at this time, free, with no next attempt and no error. */
  predicate Succeeded(r: Row, r': Row, publishedAt: Instant) {
    && SameIdentity(r, r') && Freed(r') && r'.status == Published && r'.publishedAt == Some(publishedAt)
    && r'.attemptCount == r.attemptCount && r'.nextAttemptAt == None && r'.lastError == None
  }

  /** Free, with this many attempts and the start of the reason; given up, or waiting for its next
      attempt. */
  predicate Recorded(r: Row, r': Row, attemptCount: nat, nextAttemptAt: Option<Instant>, isDeadLetter: bool,
                     reason: string) {
    && SameIdentity(r, r') && Freed(r') && r'.attemptCount == attemptCount && r'.publishedAt == r.publishedAt
    && (if isDeadLetter then r'.status == DeadLetter && r'.nextAttemptAt == None
        else r'.status == Pending && r'.nextAttemptAt == nextAttemptAt)
    && r'.lastError.Some? && r'.lastError.value <= reason
    && |r'.lastError.value| == if |reason| <= 500 then |reason| else 500
  }

  /** A failed attempt: given up if the failure is permanent or the budget spent, and otherwise to be
      repeated within the interval. */
  predicate FailedOnce(r: Row, r': Row, attempts: nat, cfg: Config, b: Blame) {
    var dead := b.permanent || attempts + 1 >= cfg.maxAttempts;
    && Recorded(r, r', attempts + 1, r'.nextAttemptAt, dead, b.reason)
    && (!dead ==> Drawn(r'.nextAttemptAt, b, Ceiling(attempts + 1, cfg.backoffBaseMs, cfg.backoffMaxMs)))
  }

  /** The whole part of the drawn fraction of the interval, from the clock reading on. */
  predicate Drawn(at: Option<Instant>, b: Blame, interval: nat) {
    && at.Some?
    && var d := at.value - b.now;
       d as real <= b.draw * interval as real < d as real + 1.0
  }

  lemma WritesSetColumns(r: Row, w: Write)
    ensures w.Mark? ==> Succeeded(r, Patched(r, w), w.publishedAt)
    ensures w.Failure? ==> Recorded(r, Patched(r, w), w.attemptCount, w.nextAttemptAt, w.isDeadLetter, w.lastError)
  {
  }

  lemma SubsetCount<T>(a: set<T>, b: set<T>)
    requires a <= b
    ensures |a| <= |b| && |b - a| == |b| - |a|
  {
    assert b == a + (b - a);
  }

  // ----- the claim query always has an answer

  ghost predicate Earliest(rows: Table, pool: set<Id>, id: Id) {
    id in pool && id in rows && forall other | other in pool && other in rows :: NotAfter(rows[id], rows[other])
  }

  lemma {:induction false} EarliestExists(rows: Table, pool: set<Id>) returns (id: Id)
    requires pool != {}
    requires forall x | x in pool :: x in rows && rows[x].nextAttemptAt.Some?
    ensures Earliest(rows, pool, id)
    decreases |pool|
  {
    id :| id in pool;
    var rest := pool - {id};
    if rest != {} {
      assert |rest| < |pool|;
      var best := EarliestExists(rows, rest);
      var (first, second) := if NotAfter(rows[id], rows[best]) then (id, best) else (best, id);
      forall other | other in pool ensures NotAfter(rows[first], rows[other]) {
        if other != id {
          assert NotAfter(rows[best], rows[other]);
        }
        assert NotAfter(rows[first], rows[second]) && NotAfter(rows[first], rows[first]);
      }
      id := first;
    } else {
      assert pool == {id};
    }
  }

  /** The query has an answer on every table, whatever is locked: the earliest candidates first. */
  lemma {:induction false} SelectionExists(rows: Table, locked: set<Id>, now: Instant, cfg: Config)
    returns (picked: seq<Id>)
    ensures Selects(rows, locked, now, cfg, picked)
    decreases cfg.batchSize
  {
    if cfg.batchSize == 0 {
      picked := [];
    } else {
      var smaller := cfg.(batchSize := cfg.batchSize - 1);
      picked := SelectionExists(rows, locked, now, smaller);
      var pool := set id | id in rows && id !in picked && Candidate(rows, locked, now, cfg.claimTimeoutMs, id);
      if pool != {} {
        var next := EarliestExists(rows, pool);
        picked := picked + [next];
      } else {
        assert forall id | id !in picked && Candidate(rows, locked, now, cfg.claimTimeoutMs, id) :: id in pool;
      }
    }
  }
}
