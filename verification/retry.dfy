/** Retry of internal/resilience/circuit_breaker.go, which drives a fresh breaker with the
    default configuration. */
module Retries {
  import opened CircuitBreakers

  const SECOND := 1_000_000_000

  function DefaultConfig(): Config {
    Config(5, 30 * SECOND, 3)
  }

  datatype Outcome = Nil | CallError(call: nat) | Cancelled(wait: nat)

  /** A Go time.Duration is a signed 64-bit integer that wraps around. */
  function Duration(d: int): int {
    (d + 0x8000_0000_0000_0000) % 0x1_0000_0000_0000_0000 - 0x8000_0000_0000_0000
  }

  function Pow2(n: nat): nat {
    if n == 0 then 1 else 2 * Pow2(n - 1)
  }

  function Sum(xs: seq<int>): int {
    if xs == [] then 0 else Sum(xs[..|xs| - 1]) + xs[|xs| - 1]
  }

  function Min(a: int, b: int): int {
    if a < b then a else b
  }

  /** The first index below `limit` at which `p` holds, or `limit`. */
  function First(p: nat -> bool, limit: nat): (r: nat)
    ensures r <= limit && (r < limit ==> p(r)) && forall j: nat :: j < r ==> !p(j)
    ensures forall j: nat :: j < limit && p(j) ==> r <= j
  {
    if limit == 0 then 0
    else
      var r := First(p, limit - 1);
      if r < limit - 1 || p(r) then r else limit
  }

  /** The breaker's default configuration opens it at its fifth failure. */
  const MOST_CALLS: nat := 5

  /** No wait overflows: four waits at most, the longest eight times the first. */
  predicate Fits(backoff: int) {
    0 <= backoff && 8 * backoff < 0x8000_0000_0000_0000
  }

  /** The backoff after `n` doublings. */
  function Doubled(backoff: int, n: nat): int {
    if n == 0 then backoff else 2 * Doubled(backoff, n - 1)
  }

  lemma {:induction false} DoubledIsPower(backoff: int, n: nat)
    ensures Doubled(backoff, n) == backoff * Pow2(n)
  {
    if n > 0 {
      DoubledIsPower(backoff, n - 1);
      assert 2 * (backoff * Pow2(n - 1)) == backoff * (2 * Pow2(n - 1));
    }
  }

  /** The waits double, and so add up to one first wait short of the next. */
  ghost predicate Doubling(backoff: int, waits: seq<int>) {
    && (forall i :: 0 <= i < |waits| ==> waits[i] == Doubled(backoff, i))
    && Sum(waits) == Doubled(backoff, |waits|) - backoff
  }

  predicate InRange(d: int) {
    -0x8000_0000_0000_0000 <= d < 0x8000_0000_0000_0000
  }

  /** Wrapping around before a doubling makes no difference after it. */
  lemma DurationTwice(d: int)
    ensures Duration(Duration(d) * 2) == Duration(d * 2)
  {
    var half, whole := 0x8000_0000_0000_0000, 0x1_0000_0000_0000_0000;
    var q := (d + half) / whole;
    assert Duration(d) == d - whole * q;
    var x := d * 2 + half;
    assert Duration(d) * 2 + half == x + (-2 * q) * whole;
    ModPlus(x, -2 * q, whole);
  }

  lemma ModPlus(x: int, k: int, w: int)
    requires w > 0
    ensures (x + k * w) % w == x % w
  {
    var q, q' := x / w, (x + k * w) / w;
    var r, r' := x % w, (x + k * w) % w;
    assert x == q * w + r && x + k * w == q' * w + r';
    assert r' - r == (q + k - q') * w by {
      assert (q + k - q') * w == q * w + k * w - q' * w;
    }
    SmallMultiple(q + k - q', w);
  }

  lemma SmallMultiple(m: int, w: int)
    requires -w < m * w < w
    ensures m == 0
  {
    if m > 0 {
      MultipleSize(m, w);
    } else if m < 0 {
      assert m * w == -((-m) * w);
      MultipleSize(-m, w);
    }
  }

  lemma {:induction false} MultipleSize(m: int, w: int)
    requires m > 0 && w > 0
    ensures m * w >= w
  {
    if m > 1 {
      assert m * w == (m - 1) * w + w;
      MultipleSize(m - 1, w);
    }
  }

  ghost predicate NoStopBefore(ok: nat -> bool, cancelled: nat -> bool, n: nat) {
    forall j: nat :: j < n ==> !ok(j) && !cancelled(j)
  }

  /** What is returned after the last call: nothing if it succeeded, the cancellation if the wait
      after it was cancelled, and otherwise its error. */
  ghost predicate Returned(maxRetries: int, ok: nat -> bool, cancelled: nat -> bool, calls: int, outcome: Outcome) {
    && calls > 0
    && (outcome == Nil <==> ok(calls - 1))
    && (outcome.CallError? ==> outcome.call == calls - 1)
    && (forall i: nat :: outcome == Cancelled(i) <==>
          && cancelled(i) && i < maxRetries && i < MOST_CALLS - 1
          && (forall j: nat :: j < i ==> !cancelled(j))
          && (forall j: nat :: j <= i ==> !ok(j)))
  }

  lemma StopsAtFirst(maxRetries: int, ok: nat -> bool, cancelled: nat -> bool, last: nat, outcome: Outcome)
    requires last <= maxRetries && last < MOST_CALLS && NoStopBefore(ok, cancelled, last)
    requires ok(last) || cancelled(last) || last == maxRetries || last == MOST_CALLS - 1
    requires outcome == if ok(last) then Nil
                        else if last == maxRetries || last == MOST_CALLS - 1 then CallError(last)
                        else Cancelled(last)
    ensures last == Min(Min(First(ok, MOST_CALLS), First(cancelled, MOST_CALLS)), Min(maxRetries, MOST_CALLS - 1))
    ensures Returned(maxRetries, ok, cancelled, last + 1, outcome)
  {
    forall i: nat | cancelled(i) && (forall j: nat :: j < i ==> !cancelled(j)) && forall j: nat :: j <= i ==> !ok(j)
      ensures i >= last
    {
      assert i < last ==> !cancelled(i);
    }
  }

  lemma DurationExact(d: int)
    requires InRange(d)
    ensures Duration(d) == d
  {
  }

  lemma {:induction false} DoubledBound(backoff: int, n: nat, most: nat)
    requires 0 <= backoff && n <= most
    ensures 0 <= Doubled(backoff, n) <= Doubled(backoff, most)
    decreases most
  {
    if n < most {
      DoubledBound(backoff, n, most - 1);
    } else if n > 0 {
      DoubledBound(backoff, n - 1, n - 1);
    }
  }

  lemma DoubledFour(backoff: int)
    ensures Doubled(backoff, 3) == 8 * backoff && Doubled(backoff, 4) == 16 * backoff
  {
    assert Doubled(backoff, 1) == 2 * backoff;
    assert Doubled(backoff, 2) == 4 * backoff;
    assert Doubled(backoff, 3) == 8 * backoff;
  }

  /** The waits so far and the delay that comes next. */
  ghost predicate Waited(backoff: int, waits: seq<int>, delay: int) {
    && |waits| < MOST_CALLS
    && (InRange(backoff) ==>
          && delay == Duration(Doubled(backoff, |waits|))
          && forall i :: 0 <= i < |waits| ==> waits[i] == Duration(Doubled(backoff, i)))
    && (Fits(backoff) ==> Doubling(backoff, waits) && Sum(waits) <= 15 * backoff)
  }

  lemma WaitOnce(backoff: int, waits: seq<int>, delay: int)
    requires Waited(backoff, waits, delay) && |waits| + 1 < MOST_CALLS
    ensures Waited(backoff, waits + [delay], Duration(delay * 2))
  {
    var n := |waits|;
    DurationTwice(Doubled(backoff, n));
    if Fits(backoff) {
      assert (waits + [delay])[..n] == waits;
      DoubledFour(backoff);
      DoubledBound(backoff, n, 3);
      DoubledBound(backoff, n + 1, 4);
      DurationExact(Doubled(backoff, n));
    }
  }

  /** `ok(i)` is whether the i-th call of the function succeeds, `cancelled(i)` whether the wait
      after it is cut short by the context, and `clock` the time of each clock reading. The calls
      end with the first success, the first cancelled wait, the last retry or the breaker's
      opening, whichever comes first. */
  method Retry(maxRetries: int, backoff: int, ok: nat -> bool, cancelled: nat -> bool, clock: nat -> int)
    returns (outcome: Outcome, calls: nat, waits: seq<int>)
    ensures maxRetries < 0 ==> outcome == Nil && calls == 0 && waits == []
    ensures maxRetries >= 0 ==>
      && calls == Min(Min(First(ok, MOST_CALLS), First(cancelled, MOST_CALLS)), Min(maxRetries, MOST_CALLS - 1)) + 1
      && |waits| == calls - 1
      && Returned(maxRetries, ok, cancelled, calls, outcome)
    ensures InRange(backoff) ==> forall i :: 0 <= i < |waits| ==> waits[i] == Duration(Doubled(backoff, i))
    ensures Fits(backoff) ==> Doubling(backoff, waits) && Sum(waits) <= 15 * backoff
  {
    var cb := new CircuitBreaker(DefaultConfig());
    var delay, reading, i := backoff, 0, 0;
    if InRange(backoff) {
      DurationExact(backoff);
    }
    calls, waits, outcome := 0, [], Nil;
    while i <= maxRetries
      invariant 0 <= i < MOST_CALLS && (i > 0 ==> i <= maxRetries)
      invariant calls == i == |waits|
      invariant cb.config == DefaultConfig() && cb.state == Closed && cb.failureCount == i
      invariant NoStopBefore(ok, cancelled, i)
      invariant outcome == if i == 0 then Nil else CallError(i - 1)
      invariant Waited(backoff, waits, delay)
      invariant fresh(cb)
      decreases maxRetries - i
    {
      var called := cb.Execute(Attempt(clock(reading), clock(reading + 1)), ok(i));
      assert called;
      calls := calls + 1;
      reading := reading + 2;
      if ok(i) {
        outcome := Nil;
        StopsAtFirst(maxRetries, ok, cancelled, i, outcome);
        return;
      }
      outcome := CallError(i);
      if cb.state == Open {
        StopsAtFirst(maxRetries, ok, cancelled, i, outcome);
        return;
      }
      if i == maxRetries {
        StopsAtFirst(maxRetries, ok, cancelled, i, outcome);
        break;
      }
      if cancelled(i) {
        outcome := Cancelled(i);
        StopsAtFirst(maxRetries, ok, cancelled, i, outcome);
        return;
      }
      WaitOnce(backoff, waits, delay);
      waits := waits + [delay];
      delay := Duration(delay * 2);
      i := i + 1;
    }
  }
}
