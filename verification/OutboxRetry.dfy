/**
 * The retry schedule of src/outbox/outbox-retry.util.ts.
 *
 * The clock reading and the random draw are parameters; intervals are whole milliseconds.
 */
module OutboxRetry {

  function Pow2(n: nat): nat {
    if n == 0 then 1 else 2 * Pow2(n - 1)
  }

  function Exponent(attemptCount: int): nat {
    if attemptCount <= 1 then 0 else if attemptCount - 1 > 20 then 20 else attemptCount - 1
  }

  function Ceiling(attemptCount: int, baseMs: nat, maxMs: nat): nat {
    var raw := baseMs * Pow2(Exponent(attemptCount));
    if raw < maxMs then raw else maxMs
  }

  /** The delay is a random fraction of the ceiling, so it never reaches the ceiling itself. */
  function Delay(attemptCount: int, baseMs: nat, maxMs: nat, draw: real): (d: int)
    requires 0.0 <= draw < 1.0
    ensures 0 <= d
    ensures d < Ceiling(attemptCount, baseMs, maxMs) || d == Ceiling(attemptCount, baseMs, maxMs) == 0
  {
    Fraction(draw, Ceiling(attemptCount, baseMs, maxMs))
  }

  function Fraction(draw: real, c: nat): (d: int)
    requires 0.0 <= draw < 1.0
    ensures 0 <= d && (d < c || d == c == 0)
  {
    ScaledBelow(draw, c as real);
    var scaled := draw * c as real;
    FloorBelow(scaled, c);
    scaled.Floor
  }

  /** The delay is the whole part of the drawn fraction of the ceiling. */
  lemma DelayIsFloor(attemptCount: int, baseMs: nat, maxMs: nat, now: int, draw: real)
    requires 0.0 <= draw < 1.0
    ensures
      var d := NextOutboxAttemptAt(attemptCount, baseMs, maxMs, now, draw) - now;
      d as real <= draw * Ceiling(attemptCount, baseMs, maxMs) as real < d as real + 1.0
  {
  }

  /** Full jitter: for every whole number below the ceiling there is a draw that gives it. */
  lemma EveryDelayIsDrawn(attemptCount: int, baseMs: nat, maxMs: nat, now: int, d: nat) returns (draw: real)
    requires d < Ceiling(attemptCount, baseMs, maxMs)
    ensures 0.0 <= draw < 1.0
    ensures NextOutboxAttemptAt(attemptCount, baseMs, maxMs, now, draw) == now + d
  {
    var c := Ceiling(attemptCount, baseMs, maxMs);
    draw := d as real / c as real;
    QuotientBelow(d as real, c as real);
  }

  lemma QuotientBelow(a: real, b: real)
    requires 0.0 <= a < b
    ensures 0.0 <= a / b < 1.0 && a / b * b == a
  {
  }

  lemma FloorBelow(x: real, c: nat)
    requires 0.0 <= x <= c as real
    requires c as real > 0.0 ==> x < c as real
    ensures 0 <= x.Floor && (x.Floor < c || x.Floor == c == 0)
  {
  }

  function NextOutboxAttemptAt(attemptCount: int, baseMs: nat, maxMs: nat, now: int, draw: real): int
    requires 0.0 <= draw < 1.0
  {
    now + Delay(attemptCount, baseMs, maxMs, draw)
  }

  lemma ScaledBelow(draw: real, c: real)
    requires 0.0 <= draw < 1.0 && 0.0 <= c
    ensures 0.0 <= draw * c <= c
    ensures c > 0.0 ==> draw * c < c
  {
    var gap := (1.0 - draw) * c;
    assert gap == c - draw * c;
  }

  lemma {:induction false} Pow2Monotone(m: nat, n: nat)
    requires m <= n
    ensures 1 <= Pow2(m) <= Pow2(n)
    decreases n
  {
    if m < n {
      Pow2Monotone(m, n - 1);
    } else if n > 0 {
      Pow2Monotone(m - 1, n - 1);
    }
  }

  /** More failed attempts never shorten the interval, and no number of them passes maxMs. */
  lemma CeilingMonotone(fewer: int, more: int, baseMs: nat, maxMs: nat)
    requires fewer <= more
    ensures Ceiling(fewer, baseMs, maxMs) <= Ceiling(more, baseMs, maxMs) <= maxMs
  {
    Pow2Monotone(Exponent(fewer), Exponent(more));
    ScaleMonotone(baseMs, Pow2(Exponent(fewer)), Pow2(Exponent(more)));
  }

  /** The interval starts at the base and doubles with every further attempt, up to maxMs, for
      twenty attempts; then it stays. */
  lemma CeilingDoubles(attemptCount: int, baseMs: nat, maxMs: nat)
    ensures attemptCount <= 1 ==> Ceiling(attemptCount, baseMs, maxMs) == if baseMs < maxMs then baseMs else maxMs
    ensures 1 <= attemptCount <= 20 ==>
      var twice := 2 * Ceiling(attemptCount, baseMs, maxMs);
      Ceiling(attemptCount + 1, baseMs, maxMs) == if twice < maxMs then twice else maxMs
    ensures attemptCount >= 21 ==> Ceiling(attemptCount, baseMs, maxMs) == Ceiling(21, baseMs, maxMs)
  {
    if 1 <= attemptCount <= 20 {
      TwiceAsMuch(baseMs, Pow2(attemptCount - 1));
      assert Pow2(attemptCount) == 2 * Pow2(attemptCount - 1);
    }
  }

  lemma TwiceAsMuch(a: nat, p: nat)
    ensures a * (2 * p) == 2 * (a * p)
  {
  }

  lemma ScaleMonotone(a: nat, x: nat, y: nat)
    requires x <= y
    ensures a * x <= a * y
  {
  }

  /** What attempts 1 .. n can be delayed by together. */
  function TotalCeiling(n: nat, baseMs: nat, maxMs: nat): nat {
    if n == 0 then 0 else TotalCeiling(n - 1, baseMs, maxMs) + Ceiling(n, baseMs, maxMs)
  }

  lemma {:induction false} TotalCeilingBound(n: nat, baseMs: nat, maxMs: nat)
    ensures TotalCeiling(n, baseMs, maxMs) <= baseMs * (Pow2(n) - 1)
    ensures TotalCeiling(n, baseMs, maxMs) <= n * maxMs
  {
    if n > 0 {
      TotalCeilingBound(n - 1, baseMs, maxMs);
      Pow2Monotone(Exponent(n), n - 1);
      ScaleMonotone(baseMs, Pow2(Exponent(n)), Pow2(n - 1));
      Doubling(baseMs, Pow2(n - 1), maxMs, n - 1);
    }
  }

  lemma Doubling(a: nat, p: nat, b: nat, n: nat)
    ensures a * (2 * p - 1) == a * (p - 1) + a * p
    ensures (n + 1) * b == n * b + b
  {
  }
}
