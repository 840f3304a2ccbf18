/**
 * src/rate-limit/rate-limit.service.ts: a per-minute policy in front of the token bucket, which
 * fails open when the server cannot be reached.
 */
module RateLimit {
  import opened Wrappers
  import opened TokenBucket

  datatype RateLimitPolicy = RateLimitPolicy(perMinute: real, burst: real)

  datatype Decision = Decision(
    isAllowed: bool, isEnforced: bool, limit: real, remaining: real, retryAfterSeconds: int)

  /** What the round trip does: answers, or throws with the script not run, or run. */
  datatype Link = Answers | FailsBefore | FailsAfter

  const MS_PER_MINUTE := 60000.0
  const DEFAULT_COST := 1.0

  function ToRefillPerMs(policy: RateLimitPolicy): real {
    policy.perMinute / MS_PER_MINUTE
  }

  function ScriptPolicy(policy: RateLimitPolicy): Policy {
    Policy(policy.burst, ToRefillPerMs(policy))
  }

  predicate Sound(policy: RateLimitPolicy) {
    policy.perMinute > 0.0 && policy.burst >= 0.0
  }

  function Unenforced(policy: RateLimitPolicy): Decision {
    Decision(true, false, policy.burst, policy.burst, 0)
  }

  /** Milliseconds to seconds, rounded up. */
  function ToSeconds(ms: int): int {
    Ceil(ms as real / 1000.0)
  }

  function FromReply(policy: RateLimitPolicy, reply: Reply): Decision {
    Decision(reply.allowed, true, policy.burst, reply.remaining as real, ToSeconds(reply.retryAfterMs))
  }

  class RateLimitService {
    const hasClient: bool
    const key: BucketKey
    var isCommandDefined: bool
    /** How often the script was registered on the client, which throws on a second time. */
    ghost var definitions: nat

    ghost predicate Valid()
      reads this
    {
      definitions == if isCommandDefined then 1 else 0
    }

    constructor (hasClient: bool, key: BucketKey)
      ensures Valid() && this.hasClient == hasClient && this.key == key && !isCommandDefined
    {
      this.hasClient, this.key := hasClient, key;
      isCommandDefined, definitions := false, 0;
    }

    method DefineCommandOnce()
      requires Valid()
      modifies this
      ensures Valid() && isCommandDefined == (old(isCommandDefined) || hasClient)
    {
      if isCommandDefined {
        return;
      }
      if hasClient {
        definitions := definitions + 1;
        isCommandDefined := true;
      }
    }

    /** Spends one token of the caller's bucket. */
    method Consume(policy: RateLimitPolicy, now: Instant, serverNow: Instant, link: Link) returns (d: Decision)
      requires Valid() && Sound(policy)
      modifies this, key
      ensures Valid() && (hasClient ==> isCommandDefined)
      ensures d.isEnforced <==> hasClient && link.Answers?
      ensures !d.isEnforced ==> d.isAllowed && d.retryAfterSeconds == 0 && d.limit == d.remaining == policy.burst
      ensures d.isEnforced ==>
        var reply := ReplyTo(old(key.stored), ScriptPolicy(policy), Call(now, DEFAULT_COST));
        d.limit == policy.burst && d.remaining == reply.remaining as real && d.isAllowed == reply.allowed
      ensures d.isEnforced ==>
        d == FromReply(policy, ReplyTo(old(key.stored), ScriptPolicy(policy), Call(now, DEFAULT_COST)))
      ensures key.stored == if hasClient && !link.FailsBefore?
                            then Some(After(old(key.stored), ScriptPolicy(policy), Call(now, DEFAULT_COST)))
                            else old(key.stored)
    {
      if !hasClient {
        return Unenforced(policy);
      }
      DefineCommandOnce();
      if link.FailsBefore? {
        return Unenforced(policy);
      }
      var reply := key.Evaluate(ScriptPolicy(policy), Call(now, DEFAULT_COST), serverNow);
      if link.FailsAfter? {
        return Unenforced(policy);
      }
      d := FromReply(policy, reply);
    }
  }

  /** A client is told to wait zero seconds exactly when its call was admitted. */
  lemma ZeroWaitIffAllowed(policy: RateLimitPolicy, stored: Option<Bucket>, c: Call)
    requires Sound(policy)
    ensures
      var d := FromReply(policy, ReplyTo(stored, ScriptPolicy(policy), c));
      d.retryAfterSeconds >= 0 && (d.retryAfterSeconds == 0 <==> d.isAllowed)
  {
    var p := ScriptPolicy(policy);
    var b := After(stored, p, c);
    if !Admits(stored, p, c) {
      WaitIsEnough(p, c.cost - b.tokens, 0);
      CeilIsLeast(ReplyTo(stored, p, c).retryAfterMs as real / 1000.0, 0);
    }
  }

  /** Whoever waits the seconds of the hint, on the clock the bucket was updated with, is admitted
      if nobody was in between. */
  lemma SecondsAreEnough(policy: RateLimitPolicy, stored: Option<Bucket>, now: Instant, later: Instant)
    requires Sound(policy) && policy.burst >= 1.0
    requires !Admits(stored, ScriptPolicy(policy), Call(now, DEFAULT_COST))
    requires
      var d := FromReply(policy, ReplyTo(stored, ScriptPolicy(policy), Call(now, DEFAULT_COST)));
      later >= After(stored, ScriptPolicy(policy), Call(now, DEFAULT_COST)).updatedAt + 1000 * d.retryAfterSeconds
    ensures Admits(Some(After(stored, ScriptPolicy(policy), Call(now, DEFAULT_COST))),
                   ScriptPolicy(policy), Call(later, DEFAULT_COST))
  {
    var p, c := ScriptPolicy(policy), Call(now, DEFAULT_COST);
    var b, ms := After(stored, p, c), ReplyTo(stored, p, c).retryAfterMs;
    CeilIsLeast(ms as real / 1000.0, ToSeconds(ms));
    assert StoredAfter(b, p, c.cost, [later], 0) == b;
    RetryHintIsTight(stored, p, c, [later], 0);
    assert AdmittedAfter(b, p, c.cost, [later], 0);
  }

  /** The seconds of the hint are its milliseconds, rounded up. */
  lemma SecondsAreLeast(policy: RateLimitPolicy, reply: Reply, seconds: int)
    ensures seconds >= FromReply(policy, reply).retryAfterSeconds <==> 1000 * seconds >= reply.retryAfterMs
  {
    CeilIsLeast(reply.retryAfterMs as real / 1000.0, seconds);
  }

  /** How many of the calls i .. n - 1 were admitted. */
  function AdmittedCount(p: Policy, calls: seq<Call>, i: nat, n: nat): nat
    requires i <= n <= |calls|
    decreases n
  {
    if i == n then 0 else AdmittedCount(p, calls, i, n - 1) + (if AdmittedAt(p, calls, n - 1) then 1 else 0)
  }

  lemma {:induction false} CountIsCost(p: Policy, calls: seq<Call>, i: nat, n: nat)
    requires i <= n <= |calls| && forall k | 0 <= k < |calls| :: calls[k].cost == 1.0
    ensures AdmittedCost(p, calls, i, n) == AdmittedCount(p, calls, i, n) as real
    decreases n
  {
    if i < n {
      CountIsCost(p, calls, i, n - 1);
    }
  }

  lemma {:induction false} CountBound(p: Policy, calls: seq<Call>,
    times: seq<Instant>, skewMs: nat, i: nat, n: nat, ms: int)
    requires Usable(p) && i <= n < |calls| && Within(calls, times, skewMs)
    requires forall k | 0 <= k < |calls| :: calls[k].cost == 1.0
    requires ms == times[n] - times[i] + 2 * skewMs
    ensures AdmittedCount(p, calls, i, n + 1) as real <= p.capacity + Gain(p, ms)
  {
    var cost := AdmittedCost(p, calls, i, n + 1);
    assert cost == AdmittedCount(p, calls, i, n + 1) as real by {
      CountIsCost(p, calls, i, n + 1);
    }
    assert cost <= p.capacity + Gain(p, ms) by {
      TrueTimeBound(p, calls, times, skewMs, i, n);
    }
  }

  /** What the sustained rate carries in `ms` milliseconds. */
  function Sustained(policy: RateLimitPolicy, ms: int): real {
    policy.perMinute * ms as real / 60000.0
  }

  lemma GainIsSustained(policy: RateLimitPolicy, p: Policy, ms: int)
    requires p == ScriptPolicy(policy)
    ensures p.capacity + Gain(p, ms) == policy.burst + Sustained(policy, ms)
  {
  }

  /** The policy as an operator reads it, for the calls a service makes, one token each: in any true
      window of `ms` milliseconds, replicas whose clocks are off by at most skewMs admit at most
      burst + perMinute * (ms + 2 * skewMs) / 60000 of them. */
  lemma {:induction false} PolicyIsKept(policy: RateLimitPolicy, calls: seq<Call>,
    times: seq<Instant>, skewMs: nat, i: nat, n: nat, ms: int)
    requires Sound(policy) && i <= n < |calls|
    requires forall k | 0 <= k < |calls| :: calls[k].cost == DEFAULT_COST
    requires Within(calls, times, skewMs) && ms == times[n] - times[i]
    ensures AdmittedCount(ScriptPolicy(policy), calls, i, n + 1) as real
         <= policy.burst + Sustained(policy, ms + 2 * skewMs)
  {
    var p, window := ScriptPolicy(policy), ms + 2 * skewMs;
    CountBound(p, calls, times, skewMs, i, n, window);
    GainIsSustained(policy, p, window);
  }

  /** Admitting one more call would take some stretch of them past burst + perMinute * elapsed. */
  ghost predicate PastPolicy(policy: RateLimitPolicy, calls: seq<Call>, n: nat)
    requires n < |calls|
  {
    exists i :: 0 <= i <= n && Exceeds(policy, calls, i, n)
  }

  predicate Exceeds(policy: RateLimitPolicy, calls: seq<Call>, i: nat, n: nat)
    requires i <= n < |calls|
  {
    AdmittedCount(ScriptPolicy(policy), calls, i, n) as real + 1.0
    > policy.burst + Sustained(policy, Clock(calls, n) - Clock(calls, i))
  }

  /** And the policy is all that is enforced: a call is refused exactly when admitting it would break
      it. */
  lemma RefusedIffPastPolicy(policy: RateLimitPolicy, calls: seq<Call>, n: nat)
    requires Sound(policy) && n < |calls| && forall k | 0 <= k < |calls| :: calls[k].cost == DEFAULT_COST
    ensures !AdmittedAt(ScriptPolicy(policy), calls, n) <==> PastPolicy(policy, calls, n)
  {
    var p := ScriptPolicy(policy);
    RefusedIffOverflow(p, calls, n);
    forall i: nat | i <= n ensures Overflows(p, calls, i, n) <==> Exceeds(policy, calls, i, n) {
      CountIsCost(p, calls, i, n);
      GainIsSustained(policy, p, Clock(calls, n) - Clock(calls, i));
    }
  }
}
