/**
 * The key's TTL: a bucket that expires when idle against one that is kept forever.
 */
module BucketExpiry {
  import opened Wrappers
  import opened TokenBucket

  /** A call, the server's clock when the script runs, and whether the key had expired by then. */
  datatype Timed = Timed(call: Call, serverNow: Instant, evicted: bool)

  datatype Key = Key(bucket: Bucket, expireAt: Instant)

  function Calls(ts: seq<Timed>): (r: seq<Call>)
    ensures |r| == |ts| && forall k | 0 <= k < |ts| :: r[k] == ts[k].call
  {
    seq(|ts|, k requires 0 <= k < |ts| => ts[k].call)
  }

  function ServerTimes(ts: seq<Timed>): (r: seq<Instant>)
    ensures |r| == |ts| && forall k | 0 <= k < |ts| :: r[k] == ts[k].serverNow
  {
    seq(|ts|, k requires 0 <= k < |ts| => ts[k].serverNow)
  }

  /** The key after the first n calls of a run with expiry. */
  function KeyAt(p: Policy, ts: seq<Timed>, n: nat): Option<Key>
    requires Usable(p) && n <= |ts|
    decreases n, 0
  {
    if n == 0 then None
    else
      var b := After(SeenAt(p, ts, n - 1), p, ts[n - 1].call);
      Some(Key(b, ts[n - 1].serverNow + TtlMs(p, b)))
  }

  function SeenAt(p: Policy, ts: seq<Timed>, n: nat): Option<Bucket>
    requires Usable(p) && n < |ts|
    decreases n, 1
  {
    var key := KeyAt(p, ts, n);
    if key.None? || ts[n].evicted then None else Some(key.value.bucket)
  }

  /** Callers' clocks are within skewMs of the server's, and no key goes before its time. It may
      linger after; the very instant of its expiry counts as its time here. */
  ghost predicate WellTimed(p: Policy, ts: seq<Timed>, skewMs: nat)
    requires Usable(p)
  {
    && Costed(Calls(ts))
    && Within(Calls(ts), ServerTimes(ts), skewMs)
    && forall n | 0 <= n < |ts| && ts[n].evicted ::
         KeyAt(p, ts, n).Some? ==> ts[n].serverNow >= KeyAt(p, ts, n).value.expireAt
  }

  /** A bucket left alone until its TTL has passed would be full again. */
  lemma RefilledByExpiry(p: Policy, b: Bucket, now: Instant)
    requires Usable(p) && b.tokens <= p.capacity
    requires now >= b.updatedAt + Ceil((p.capacity - b.tokens) / p.refillPerMs)
    ensures Refilled(Some(b), p, now) == Refilled(None, p, now)
  {
    WaitIsEnough(p, p.capacity - b.tokens, now - b.updatedAt);
    WaitIsEnough(p, p.capacity - b.tokens, -1);
    GainSplits(p, 1, -1);
  }

  lemma {:induction false} KeptBucket(p: Policy, ts: seq<Timed>, skewMs: nat, n: nat)
    requires Usable(p) && WellTimed(p, ts, skewMs) && 2 * skewMs <= TTL_SLACK_MS && n <= |ts|
    ensures KeyAt(p, ts, n).Some? <==> n > 0
    ensures n > 0 ==> Some(KeyAt(p, ts, n).value.bucket) == StoredAt(p, Calls(ts), n)
    decreases n, 0
  {
    if n > 0 {
      SameView(p, ts, skewMs, n - 1);
    }
  }

  /** What the script sees refills to the same bucket, expired or not. */
  lemma {:induction false} SameView(p: Policy, ts: seq<Timed>, skewMs: nat, n: nat)
    requires Usable(p) && WellTimed(p, ts, skewMs) && 2 * skewMs <= TTL_SLACK_MS && n < |ts|
    ensures Refilled(SeenAt(p, ts, n), p, ts[n].call.now) == Refilled(StoredAt(p, Calls(ts), n), p, ts[n].call.now)
    decreases n, 1
  {
    KeptBucket(p, ts, skewMs, n);
    if n > 0 && ts[n].evicted {
      var calls := Calls(ts);
      var b := StoredAt(p, calls, n).value;
      LevelShape(p, calls, n - 1);
      ClockBehindTime(calls, ServerTimes(ts), skewMs, n - 1);
      assert KeyAt(p, ts, n).value.expireAt == ts[n - 1].serverNow + TtlMs(p, b);
      assert calls[n].now >= ServerTimes(ts)[n] - skewMs;
      RefilledByExpiry(p, b, ts[n].call.now);
    }
  }

  /** Expiry is invisible: same decision, remaining and retry hint on every call. */
  lemma {:induction false} ExpiryIsInvisible(p: Policy, ts: seq<Timed>, skewMs: nat, n: nat)
    requires Usable(p) && WellTimed(p, ts, skewMs) && 2 * skewMs <= TTL_SLACK_MS && n < |ts|
    ensures ReplyTo(SeenAt(p, ts, n), p, ts[n].call) == ReplyTo(StoredAt(p, Calls(ts), n), p, ts[n].call)
  {
    SameView(p, ts, skewMs, n);
  }

  ghost predicate Invisible(p: Policy, ts: seq<Timed>)
    requires Usable(p)
  {
    forall n | 0 <= n < |ts| ::
      ReplyTo(SeenAt(p, ts, n), p, ts[n].call) == ReplyTo(StoredAt(p, Calls(ts), n), p, ts[n].call)
  }

  /** One token spent on a clock 501 ms ahead, asked for again on one 501 ms behind, the millisecond
      after the key's expiry. */
  lemma SlackTooSmall() returns (p: Policy, ts: seq<Timed>)
    ensures Usable(p) && WellTimed(p, ts, 501) && !Invisible(p, ts)
    ensures forall n | 0 <= n < |ts| && ts[n].evicted ::
      KeyAt(p, ts, n).Some? && ts[n].serverNow > KeyAt(p, ts, n).value.expireAt
  {
    p := Policy(1.0, 0.5);
    ts := [Timed(Call(501, 1.0), 0, false), Timed(Call(502, 1.0), 1003, true)];
    var calls := Calls(ts);
    assert StoredAt(p, calls, 0) == None;
    assert StoredAt(p, calls, 1) == Some(Bucket(0.0, 501));
    assert KeyAt(p, ts, 0) == None;
    assert SeenAt(p, ts, 0) == None;
    assert KeyAt(p, ts, 1) == Some(Key(Bucket(0.0, 501), 1002)) by {
      assert (1.0 - 0.0) / 0.5 == 2.0;
    }
    assert SeenAt(p, ts, 1) == None;
    assert !AdmittedAt(p, calls, 1);
    assert ReplyTo(SeenAt(p, ts, 1), p, ts[1].call).allowed;
  }

  /** The slack of one second hides expiry exactly as long as no clock is off by more than half of it. */
  lemma ExpiryInvisibleIffSkewFits(skewMs: nat)
    ensures 2 * skewMs <= TTL_SLACK_MS
       <==> forall p: Policy, ts: seq<Timed> :: Usable(p) && WellTimed(p, ts, skewMs) ==> Invisible(p, ts)
  {
    if 2 * skewMs <= TTL_SLACK_MS {
      forall p: Policy, ts: seq<Timed> | Usable(p) && WellTimed(p, ts, skewMs) ensures Invisible(p, ts) {
        forall n: nat | n < |ts|
          ensures ReplyTo(SeenAt(p, ts, n), p, ts[n].call) == ReplyTo(StoredAt(p, Calls(ts), n), p, ts[n].call)
        {
          ExpiryIsInvisible(p, ts, skewMs, n);
        }
      }
    } else {
      var p, ts := SlackTooSmall();
      assert WellTimed(p, ts, skewMs);
    }
  }
}
