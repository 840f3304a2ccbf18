/**
 * The token bucket script of src/rate-limit/token-bucket.constant.ts over exact reals, with
 * instants in whole milliseconds. The policy of a key does not change during a run.
 */
module TokenBucket {
  import opened Wrappers

  type Instant = int

  datatype Policy = Policy(capacity: real, refillPerMs: real)

  datatype Bucket = Bucket(tokens: real, updatedAt: Instant)

  datatype Call = Call(now: Instant, cost: real)

  datatype Reply = Reply(allowed: bool, remaining: int, retryAfterMs: int)

  const TTL_SLACK_MS := 1000

  predicate Usable(p: Policy) {
    p.capacity >= 0.0 && p.refillPerMs > 0.0
  }

  function Ceil(x: real): int {
    -(-x).Floor
  }

  function Min(a: real, b: real): real {
    if a <= b then a else b
  }

  /** What `ms` milliseconds refill. */
  function Gain(p: Policy, ms: int): real {
    ms as real * p.refillPerMs
  }

  // ----- one evaluation of the script

  /** The bucket as the decision sees it; an absent one is a full one. */
  function Refilled(stored: Option<Bucket>, p: Policy, now: Instant): Bucket {
    match stored
    case None => Bucket(p.capacity, now)
    case Some(b) =>
      if now > b.updatedAt
      then Bucket(Min(p.capacity, b.tokens + Gain(p, now - b.updatedAt)), now)
      else b
  }

  predicate Admits(stored: Option<Bucket>, p: Policy, c: Call) {
    Refilled(stored, p, c.now).tokens >= c.cost
  }

  function After(stored: Option<Bucket>, p: Policy, c: Call): Bucket {
    var b := Refilled(stored, p, c.now);
    if b.tokens >= c.cost then b.(tokens := b.tokens - c.cost) else b
  }

  function TtlMs(p: Policy, b: Bucket): int
    requires p.refillPerMs > 0.0
  {
    Ceil((p.capacity - b.tokens) / p.refillPerMs) + TTL_SLACK_MS
  }

  function ReplyTo(stored: Option<Bucket>, p: Policy, c: Call): Reply
    requires p.refillPerMs > 0.0
  {
    var b := After(stored, p, c);
    Reply(Admits(stored, p, c), b.tokens.Floor,
          if Admits(stored, p, c) then 0 else Ceil((c.cost - b.tokens) / p.refillPerMs))
  }

  /** One key as the server holds it. */
  class BucketKey {
    var stored: Option<Bucket>
    var expireAt: Option<Instant>

    constructor ()
      ensures stored == None && expireAt == None
    {
      stored, expireAt := None, None;
    }

    /** The script; `serverNow` is the server's own clock, which only PEXPIRE reads. */
    method Evaluate(p: Policy, c: Call, serverNow: Instant) returns (reply: Reply)
      requires Usable(p)
      modifies this
      ensures stored == Some(After(old(stored), p, c))
      ensures expireAt == Some(serverNow + TtlMs(p, After(old(stored), p, c)))
      ensures reply == ReplyTo(old(stored), p, c)
    {
      var tokens, updatedAt := p.capacity, c.now;
      if stored.Some? {
        tokens, updatedAt := stored.value.tokens, stored.value.updatedAt;
      }
      if c.now > updatedAt {
        tokens := Min(p.capacity, tokens + Gain(p, c.now - updatedAt));
        updatedAt := c.now;
      }
      var allowed := false;
      if tokens >= c.cost {
        allowed := true;
        tokens := tokens - c.cost;
      }
      stored := Some(Bucket(tokens, updatedAt));
      expireAt := Some(serverNow + Ceil((p.capacity - tokens) / p.refillPerMs) + TTL_SLACK_MS);
      var retryAfterMs := 0;
      if !allowed {
        retryAfterMs := Ceil((c.cost - tokens) / p.refillPerMs);
      }
      reply := Reply(allowed, tokens.Floor, retryAfterMs);
    }
  }

  // ----- runs of one key

  ghost predicate Costed(calls: seq<Call>) {
    forall k | 0 <= k < |calls| :: calls[k].cost >= 0.0
  }

  /** What is stored once the first n calls are done. */
  function StoredAt(p: Policy, calls: seq<Call>, n: nat): Option<Bucket>
    requires n <= |calls|
  {
    if n == 0 then None else Some(After(StoredAt(p, calls, n - 1), p, calls[n - 1]))
  }

  predicate AdmittedAt(p: Policy, calls: seq<Call>, n: nat)
    requires n < |calls|
  {
    Admits(StoredAt(p, calls, n), p, calls[n])
  }

  /** The greatest clock reading among calls 0 .. n. */
  function Clock(calls: seq<Call>, n: nat): Instant
    requires n < |calls|
  {
    if n == 0 then calls[0].now
    else if calls[n].now > Clock(calls, n - 1) then calls[n].now else Clock(calls, n - 1)
  }

  /** The cost of the calls before call n that were admitted. */
  function Admitted(p: Policy, calls: seq<Call>, n: nat): real
    requires n <= |calls|
  {
    if n == 0 then 0.0
    else Admitted(p, calls, n - 1) + (if AdmittedAt(p, calls, n - 1) then calls[n - 1].cost else 0.0)
  }

  /** The cost of the calls among i .. n - 1 that were admitted. */
  function AdmittedCost(p: Policy, calls: seq<Call>, i: nat, n: nat): real
    requires i <= n <= |calls|
  {
    Admitted(p, calls, n) - Admitted(p, calls, i)
  }

  function LevelAt(p: Policy, calls: seq<Call>, n: nat): Bucket
    requires n < |calls|
  {
    Refilled(StoredAt(p, calls, n), p, calls[n].now)
  }

  lemma {:induction false} ClockGrows(calls: seq<Call>, i: nat, n: nat)
    requires i <= n < |calls|
    ensures calls[i].now <= Clock(calls, i) <= Clock(calls, n)
    decreases n
  {
    if i < n {
      ClockGrows(calls, i, n - 1);
    }
  }

  lemma GainSplits(p: Policy, a: int, b: int)
    ensures Gain(p, a + b) == Gain(p, a) + Gain(p, b)
  {
    assert (a + b) as real == a as real + b as real;
  }

  lemma GainGrows(p: Policy, a: int, b: int)
    requires p.refillPerMs > 0.0 && a <= b
    ensures Gain(p, a) <= Gain(p, b)
  {
    assert a as real <= b as real;
  }

  /** Stamped with the running clock and between empty and full, at every decision. */
  lemma {:induction false} LevelShape(p: Policy, calls: seq<Call>, n: nat)
    requires Usable(p) && Costed(calls) && n < |calls|
    ensures LevelAt(p, calls, n).updatedAt == Clock(calls, n)
    ensures 0.0 <= LevelAt(p, calls, n).tokens <= p.capacity
  {
    if n > 0 {
      LevelShape(p, calls, n - 1);
      GainGrows(p, 0, Clock(calls, n) - Clock(calls, n - 1));
    }
  }

  /** All that was refilled less all that was spent, were there no cap. */
  function Uncapped(p: Policy, calls: seq<Call>, n: nat): real
    requires n < |calls|
  {
    Gain(p, Clock(calls, n)) - Admitted(p, calls, n)
  }

  /** From one decision to the next: spend, refill for the time the clock advanced, up to full. */
  lemma LevelStep(p: Policy, calls: seq<Call>, n: nat)
    requires Usable(p) && Costed(calls) && n + 1 < |calls|
    ensures LevelAt(p, calls, n + 1).tokens
         == Min(p.capacity, LevelAt(p, calls, n).tokens + Uncapped(p, calls, n + 1) - Uncapped(p, calls, n))
  {
    LevelShape(p, calls, n);
    LevelShape(p, calls, n + 1);
    GainSplits(p, Clock(calls, n), Clock(calls, n + 1) - Clock(calls, n));
  }

  /** A level that moves with `u` but never above the cap is the cap less the most `u` has ever
      dropped since some earlier round. */
  lemma {:induction false} CappedWalk(cap: real, level: seq<real>, u: seq<real>, n: nat) returns (i: nat)
    requires |level| == |u| && n < |u| && level[0] == cap
    requires forall k | 0 <= k < |u| - 1 :: level[k + 1] == Min(cap, level[k] + u[k + 1] - u[k])
    ensures i <= n && level[n] == cap + u[n] - u[i]
    ensures forall j | 0 <= j <= n :: level[n] <= cap + u[n] - u[j]
  {
    if n == 0 {
      i := 0;
    } else {
      i := CappedWalk(cap, level, u, n - 1);
      assert level[n - 1 + 1] == Min(cap, level[n - 1] + u[n - 1 + 1] - u[n - 1]);
      if level[n] == cap {
        i := n;
      }
    }
  }

  /** What burst and rate leave of the stretch of calls from i on, just before call n. */
  function Allowance(p: Policy, calls: seq<Call>, i: nat, n: nat): real
    requires i <= n < |calls|
  {
    p.capacity + Gain(p, Clock(calls, n) - Clock(calls, i)) - AdmittedCost(p, calls, i, n)
  }

  lemma AllowanceIsDrop(p: Policy, calls: seq<Call>, i: nat, n: nat)
    requires i <= n < |calls|
    ensures Allowance(p, calls, i, n) == p.capacity + Uncapped(p, calls, n) - Uncapped(p, calls, i)
  {
    GainSplits(p, Clock(calls, i), Clock(calls, n) - Clock(calls, i));
  }

  /** Exactness. Just before every decision the tokens are the least allowance over all stretches
      of calls that end there; `i` starts a stretch that attains it. */
  lemma LevelIsLeastAllowance(p: Policy, calls: seq<Call>, n: nat) returns (i: nat)
    requires Usable(p) && Costed(calls) && n < |calls|
    ensures i <= n && LevelAt(p, calls, n).tokens == Allowance(p, calls, i, n)
    ensures forall j | 0 <= j <= n :: LevelAt(p, calls, n).tokens <= Allowance(p, calls, j, n)
  {
    var level := seq(n + 1, k requires 0 <= k <= n => LevelAt(p, calls, k).tokens);
    var u := seq(n + 1, k requires 0 <= k <= n => Uncapped(p, calls, k));
    forall k | 0 <= k < n ensures level[k + 1] == Min(p.capacity, level[k] + u[k + 1] - u[k]) {
      LevelStep(p, calls, k);
    }
    i := CappedWalk(p.capacity, level, u, n);
    AllowanceIsDrop(p, calls, i, n);
    forall j | 0 <= j <= n ensures LevelAt(p, calls, n).tokens <= Allowance(p, calls, j, n) {
      AllowanceIsDrop(p, calls, j, n);
      assert level[n] <= p.capacity + u[n] - u[j];
    }
  }

  /** Admitting call n would take the stretch that starts at call i past burst + rate * elapsed. */
  predicate Overflows(p: Policy, calls: seq<Call>, i: nat, n: nat)
    requires i <= n < |calls|
  {
    AdmittedCost(p, calls, i, n) + calls[n].cost > p.capacity + Gain(p, Clock(calls, n) - Clock(calls, i))
  }

  /** A call is refused exactly when admitting it would overflow some stretch of past calls. */
  lemma RefusedIffOverflow(p: Policy, calls: seq<Call>, n: nat)
    requires Usable(p) && Costed(calls) && n < |calls|
    ensures !AdmittedAt(p, calls, n) <==> exists i :: 0 <= i <= n && Overflows(p, calls, i, n)
  {
    var i := LevelIsLeastAllowance(p, calls, n);
    assert Overflows(p, calls, i, n) <==> calls[n].cost > Allowance(p, calls, i, n);
    forall j | 0 <= j <= n && Overflows(p, calls, j, n) ensures !AdmittedAt(p, calls, n) {
      assert calls[n].cost > Allowance(p, calls, j, n);
    }
  }

  /** No stretch of calls is ever admitted more than burst + rate * elapsed. */
  lemma {:induction false} NoStretchOverflows(p: Policy, calls: seq<Call>, i: nat, n: nat)
    requires Usable(p) && Costed(calls) && i <= n < |calls|
    ensures AdmittedCost(p, calls, i, n + 1) <= p.capacity + Gain(p, Clock(calls, n) - Clock(calls, i))
  {
    var _ := LevelIsLeastAllowance(p, calls, n);
    LevelShape(p, calls, n);
    assert LevelAt(p, calls, n).tokens <= Allowance(p, calls, i, n);
  }

  // ----- clocks that disagree

  /** The same calls, each stamped with the greatest reading so far. */
  function Straightened(calls: seq<Call>): (r: seq<Call>)
    ensures |r| == |calls| && forall k | 0 <= k < |calls| :: r[k] == Call(Clock(calls, k), calls[k].cost)
  {
    seq(|calls|, k requires 0 <= k < |calls| => Call(Clock(calls, k), calls[k].cost))
  }

  lemma {:induction false} StraightenedStores(p: Policy, calls: seq<Call>, n: nat)
    requires Usable(p) && Costed(calls) && n <= |calls|
    ensures StoredAt(p, Straightened(calls), n) == StoredAt(p, calls, n)
    decreases n, 0
  {
    if n > 0 {
      StraightenedNext(p, calls, n - 1);
    }
  }

  lemma StraightenedNext(p: Policy, calls: seq<Call>, n: nat)
    requires Usable(p) && Costed(calls) && n < |calls|
    ensures StoredAt(p, Straightened(calls), n + 1) == StoredAt(p, calls, n + 1)
    decreases n, 1
  {
    StraightenedStores(p, calls, n);
    SameNext(p, calls, n);
    assert Straightened(calls)[n] == Call(Clock(calls, n), calls[n].cost);
  }

  /** A bucket is refilled alike by a call's own reading and by the running maximum. */
  lemma {:induction false} SameRefill(p: Policy, calls: seq<Call>, n: nat)
    requires Usable(p) && Costed(calls) && n < |calls|
    ensures Refilled(StoredAt(p, calls, n), p, calls[n].now) == Refilled(StoredAt(p, calls, n), p, Clock(calls, n))
  {
    if n > 0 {
      LevelShape(p, calls, n - 1);
    }
  }

  lemma SameRefillSameResult(stored: Option<Bucket>, p: Policy, c: Call, now: Instant)
    requires p.refillPerMs > 0.0 && Refilled(stored, p, c.now) == Refilled(stored, p, now)
    ensures After(stored, p, c) == After(stored, p, Call(now, c.cost))
    ensures ReplyTo(stored, p, c) == ReplyTo(stored, p, Call(now, c.cost))
  {
  }

  lemma {:induction false} SameNext(p: Policy, calls: seq<Call>, n: nat)
    requires Usable(p) && Costed(calls) && n < |calls|
    ensures
      var stored := StoredAt(p, calls, n);
      && After(stored, p, calls[n]) == After(stored, p, Call(Clock(calls, n), calls[n].cost))
      && ReplyTo(stored, p, calls[n]) == ReplyTo(stored, p, Call(Clock(calls, n), calls[n].cost))
  {
    SameRefill(p, calls, n);
    SameRefillSameResult(StoredAt(p, calls, n), p, calls[n], Clock(calls, n));
  }

  /** A clock running behind changes nothing: out-of-order readings get the replies of their
      running maximum. */
  lemma {:induction false} SkewIsHarmless(p: Policy, calls: seq<Call>, n: nat)
    requires Usable(p) && Costed(calls) && n < |calls|
    ensures ReplyTo(StoredAt(p, calls, n), p, calls[n])
         == ReplyTo(StoredAt(p, Straightened(calls), n), p, Straightened(calls)[n])
  {
    StraightenedStores(p, calls, n);
    SameNext(p, calls, n);
  }

  /** Call k is made at true time times[k], on a clock that is off by at most skewMs. */
  ghost predicate Within(calls: seq<Call>, times: seq<Instant>, skewMs: nat) {
    && |times| == |calls|
    && (forall j, k | 0 <= j <= k < |times| :: times[j] <= times[k])
    && (forall k | 0 <= k < |calls| :: times[k] - skewMs <= calls[k].now <= times[k] + skewMs)
  }

  lemma {:induction false} ClockBehindTime(calls: seq<Call>, times: seq<Instant>, skewMs: nat, n: nat)
    requires Within(calls, times, skewMs) && n < |calls|
    ensures Clock(calls, n) <= times[n] + skewMs
  {
    if n > 0 {
      ClockBehindTime(calls, times, skewMs, n - 1);
    }
  }

  /** In true time, whatever the clocks within the skew say. */
  lemma TrueTimeBound(p: Policy, calls: seq<Call>, times: seq<Instant>, skewMs: nat, i: nat, n: nat)
    requires Usable(p) && Costed(calls) && Within(calls, times, skewMs) && i <= n < |calls|
    ensures AdmittedCost(p, calls, i, n + 1)
         <= p.capacity + Gain(p, times[n] - times[i] + 2 * skewMs)
  {
    NoStretchOverflows(p, calls, i, n);
    ClockBehindTime(calls, times, skewMs, n);
    ClockGrows(calls, i, n);
    GainGrows(p, Clock(calls, n) - Clock(calls, i), times[n] - times[i] + 2 * skewMs);
  }

  // ----- the hints

  lemma CeilIsLeast(x: real, k: int)
    ensures k >= Ceil(x) <==> k as real >= x
  {
    var f := (-x).Floor;
    assert f as real <= -x < f as real + 1.0;
    if k as real >= x {
      assert (-k) as real <= -x;
    }
  }

  /** Waiting `ms` refills `missing` tokens exactly when ms is at least the rounded-up quotient. */
  lemma WaitIsEnough(p: Policy, missing: real, ms: int)
    requires p.refillPerMs > 0.0
    ensures ms >= Ceil(missing / p.refillPerMs) <==> Gain(p, ms) >= missing
  {
    var q, m := missing / p.refillPerMs, ms as real;
    CeilIsLeast(q, ms);
    assert q * p.refillPerMs == missing;
    ScaleOrder(q, m, p.refillPerMs);
  }

  lemma ScaleOrder(a: real, b: real, c: real)
    requires c > 0.0
    ensures a <= b <==> a * c <= b * c
  {
    if a <= b {
      assert (b - a) * c >= 0.0;
    } else {
      assert (a - b) * c > 0.0;
    }
  }

  /** The hint of a refusal is the least wait that refills what is missing; of an admission it is
      zero. */
  lemma HintIsLeastWait(stored: Option<Bucket>, p: Policy, c: Call, ms: int)
    requires p.refillPerMs > 0.0
    ensures Admits(stored, p, c) ==> ReplyTo(stored, p, c).retryAfterMs == 0
    ensures !Admits(stored, p, c) ==>
      (ms >= ReplyTo(stored, p, c).retryAfterMs <==> After(stored, p, c).tokens + Gain(p, ms) >= c.cost)
  {
    WaitIsEnough(p, c.cost - After(stored, p, c).tokens, ms);
  }

  /** The key lives for the least time in which it refills, and a second. */
  lemma TtlIsLeastRefill(p: Policy, b: Bucket, ms: int)
    requires p.refillPerMs > 0.0
    ensures ms >= TtlMs(p, b) - 1000 <==> b.tokens + Gain(p, ms) >= p.capacity
  {
    WaitIsEnough(p, p.capacity - b.tokens, ms);
  }

  /** An absent bucket is a full one. */
  lemma AbsentIsFull(p: Policy, c: Call)
    requires Usable(p)
    ensures Admits(None, p, c) <==> c.cost <= p.capacity
    ensures After(None, p, c) == After(Some(Bucket(p.capacity, c.now)), p, c)
    ensures ReplyTo(None, p, c) == ReplyTo(Some(Bucket(p.capacity, c.now)), p, c)
  {
  }

  /** Calls of one cost arriving at `nows`, after which the key stores this. */
  function StoredAfter(start: Bucket, p: Policy, cost: real, nows: seq<Instant>, n: nat): Bucket
    requires n <= |nows|
  {
    if n == 0 then start else After(Some(StoredAfter(start, p, cost, nows, n - 1)), p, Call(nows[n - 1], cost))
  }

  predicate AdmittedAfter(start: Bucket, p: Policy, cost: real, nows: seq<Instant>, k: nat)
    requires k < |nows|
  {
    Admits(Some(StoredAfter(start, p, cost, nows, k)), p, Call(nows[k], cost))
  }

  /** Refused calls leave the refill where it would have been without them. */
  lemma {:induction false} RefusalsOnlyRefill(start: Bucket, p: Policy, cost: real, nows: seq<Instant>, n: nat)
    requires Usable(p) && start.tokens < cost <= p.capacity && n <= |nows|
    requires forall k | 0 <= k < n :: !AdmittedAfter(start, p, cost, nows, k)
    ensures
      var b := StoredAfter(start, p, cost, nows, n);
      && b.updatedAt >= start.updatedAt
      && (b.updatedAt == start.updatedAt || exists k :: 0 <= k < n && nows[k] == b.updatedAt)
      && b.tokens == start.tokens + Gain(p, b.updatedAt - start.updatedAt) < cost
  {
    if n > 0 {
      RefusalsOnlyRefill(start, p, cost, nows, n - 1);
      assert !AdmittedAfter(start, p, cost, nows, n - 1);
      var b := StoredAfter(start, p, cost, nows, n - 1);
      GainSplits(p, b.updatedAt - start.updatedAt, nows[n - 1] - b.updatedAt);
    }
  }

  lemma AdmittedIffWaited(start: Bucket, p: Policy, cost: real, nows: seq<Instant>, k: nat)
    requires Usable(p) && start.tokens < cost <= p.capacity && k < |nows|
    requires forall j | 0 <= j < k :: !AdmittedAfter(start, p, cost, nows, j)
    ensures AdmittedAfter(start, p, cost, nows, k)
       <==> nows[k] >= start.updatedAt + Ceil((cost - start.tokens) / p.refillPerMs)
  {
    RefusalsOnlyRefill(start, p, cost, nows, k);
    var b := StoredAfter(start, p, cost, nows, k);
    GainSplits(p, b.updatedAt - start.updatedAt, nows[k] - b.updatedAt);
    WaitIsEnough(p, cost - start.tokens, nows[k] - start.updatedAt);
    WaitIsEnough(p, cost - start.tokens, b.updatedAt - start.updatedAt);
  }

  /** After a refusal that returned r ms, and as long as every call since was refused too, a call
      is admitted exactly when its clock shows r ms past the bucket's last update. */
  lemma RetryHintIsTight(stored: Option<Bucket>, p: Policy, c: Call, nows: seq<Instant>, k: nat)
    requires Usable(p) && c.cost <= p.capacity && k < |nows|
    requires !Admits(stored, p, c)
    requires forall j | 0 <= j < k :: !AdmittedAfter(After(stored, p, c), p, c.cost, nows, j)
    ensures ReplyTo(stored, p, c).retryAfterMs >= 1
    ensures AdmittedAfter(After(stored, p, c), p, c.cost, nows, k)
       <==> nows[k] >= After(stored, p, c).updatedAt + ReplyTo(stored, p, c).retryAfterMs
  {
    var b := After(stored, p, c);
    AdmittedIffWaited(b, p, c.cost, nows, k);
    WaitIsEnough(p, c.cost - b.tokens, 0);
  }

  /** The hint of a refusal can be kept exactly when one full bucket covers the cost; otherwise
      no wait is long enough. */
  lemma HintKeptIffCostFits(stored: Option<Bucket>, p: Policy, c: Call)
    requires Usable(p) && !Admits(stored, p, c)
    requires stored.Some? ==> stored.value.tokens <= p.capacity
    ensures
      c.cost <= p.capacity <==>
      forall now | now >= After(stored, p, c).updatedAt + ReplyTo(stored, p, c).retryAfterMs ::
        Admits(Some(After(stored, p, c)), p, Call(now, c.cost))
  {
    var b, r := After(stored, p, c), ReplyTo(stored, p, c).retryAfterMs;
    if c.cost <= p.capacity {
      forall now | now >= b.updatedAt + r ensures Admits(Some(b), p, Call(now, c.cost)) {
        assert StoredAfter(b, p, c.cost, [now], 0) == b;
        RetryHintIsTight(stored, p, c, [now], 0);
      }
    } else {
      assert !Admits(Some(b), p, Call(b.updatedAt + r, c.cost));
    }
  }

  /** A reported remaining of k means that of the next unit calls at that instant (or on clocks
      behind it) exactly the first k are admitted. */
  lemma RemainingIsExact(stored: Option<Bucket>, p: Policy, c: Call, nows: seq<Instant>, m: nat)
    requires Usable(p) && m < |nows| && c.cost >= 0.0
    requires stored.Some? ==> stored.value.tokens >= 0.0
    requires forall k | 0 <= k < |nows| :: nows[k] <= After(stored, p, c).updatedAt
    ensures AdmittedAfter(After(stored, p, c), p, 1.0, nows, m) <==> m < ReplyTo(stored, p, c).remaining
  {
    NeverOverdrawn(stored, p, c);
    UnitCalls(After(stored, p, c), p, nows, m);
  }

  lemma NeverOverdrawn(stored: Option<Bucket>, p: Policy, c: Call)
    requires Usable(p) && c.cost >= 0.0 && (stored.Some? ==> stored.value.tokens >= 0.0)
    ensures After(stored, p, c).tokens >= 0.0
  {
    if stored.Some? && c.now > stored.value.updatedAt {
      GainGrows(p, 0, c.now - stored.value.updatedAt);
    }
  }

  lemma {:induction false} UnitCalls(b: Bucket, p: Policy, nows: seq<Instant>, m: nat)
    requires m <= |nows| && b.tokens >= 0.0
    requires forall k | 0 <= k < |nows| :: nows[k] <= b.updatedAt
    ensures
      var taken := if m < b.tokens.Floor then m else b.tokens.Floor;
      StoredAfter(b, p, 1.0, nows, m) == Bucket(b.tokens - taken as real, b.updatedAt)
  {
    if m > 0 {
      UnitCalls(b, p, nows, m - 1);
    }
  }
}
