/** The retry delay of a queued instance: QueueManager.backoff. */
module Backoff {
  import opened MachineInts

  function Pow2(k: nat): (p: nat)
    ensures p >= 1
  {
    if k == 0 then 1 else 2 * Pow2(k - 1)
  }

  /** The documented delay: min(base * 2^(n-1), max). */
  function Delay(base: nat, max: nat, n: nat): nat
    requires n >= 1
  {
    var grown := base * Pow2(n - 1);
    if grown < max then grown else max
  }

  /** What the doubling loop leaves in `d` after at most `steps` more rounds, in int64 arithmetic. */
  function Doubling(d: int, max: int, steps: nat): int
    decreases steps
  {
    if steps == 0 || d >= max then d
    else
      var doubled := WrapInt64(d * 2);
      if doubled >= max then max else Doubling(doubled, max, steps - 1)
  }

  /** The delay that is handed out for attempt n. */
  function Backoff(base: int, max: int, n: int): int {
    if n <= 1 then base
    else
      var d := Doubling(base, max, n - 1);
      if d > max then max else d
  }

  /** The Go loop: double until the cap is reached, for any int64 values. */
  method ComputeBackoff(base: int, max: int, n: int) returns (r: int)
    requires IsInt64(base) && IsInt64(max) && IsInt64(n)
    ensures r == Backoff(base, max, n)
  {
    if n <= 1 {
      return base;
    }
    var d := base;
    var i := 1;
    while i < n && d < max
      invariant 1 <= i <= n
      invariant Doubling(base, max, n - 1) == Doubling(d, max, n - i)
    {
      d := WrapInt64(d * 2);
      if d >= max {
        return max;
      }
      i := i + 1;
    }
    if d > max {
      return max;
    }
    return d;
  }

  /** Some doubling of base reaches the cap before int64 runs out. */
  ghost predicate CapReachable(base: nat, max: nat) {
    exists k: nat :: max <= base * Pow2(k) <= MAX_INT64
  }

  lemma {:induction false} DoublingIsExact(base: nat, max: nat, done: nat, steps: nat, cap: nat)
    requires 0 < base <= max <= base * Pow2(cap) <= MAX_INT64
    requires base * Pow2(done) < max || done == 0
    ensures Doubling(base * Pow2(done), max, steps) == Delay(base, max, done + steps + 1)
    decreases steps
  {
    if steps == 0 || base * Pow2(done) >= max {
      PowMonotone(done, done + steps);
      MulMonotone(base, Pow2(done), Pow2(done + steps));
    } else {
      var doubled := base * Pow2(done) * 2;
      assert doubled == base * Pow2(done + 1);
      if done >= cap {
        PowMonotone(cap, done);
        MulMonotone(base, Pow2(cap), Pow2(done));
        assert false;
      }
      PowMonotone(done + 1, cap);
      MulMonotone(base, Pow2(done + 1), Pow2(cap));
      if doubled >= max {
        PowMonotone(done + 1, done + steps);
        MulMonotone(base, Pow2(done + 1), Pow2(done + steps));
      } else {
        DoublingIsExact(base, max, done + 1, steps - 1, cap);
      }
    }
  }

  lemma {:induction false} PowMonotone(a: nat, b: nat)
    requires a <= b
    ensures Pow2(a) <= Pow2(b)
    decreases b - a
  {
    if a < b {
      PowMonotone(a + 1, b);
    }
  }

  lemma MulMonotone(x: nat, a: nat, b: nat)
    requires a <= b
    ensures x * a <= x * b
  {
  }

  /** Below the first power of two that reaches the cap, nothing wraps. */
  lemma {:induction false} DoublingBelowCap(base: nat, max: nat, done: nat, steps: nat)
    requires 0 < base && max <= MAX_INT64
    requires base * Pow2(done + steps) < max
    ensures Doubling(base * Pow2(done), max, steps) == base * Pow2(done + steps)
    decreases steps
  {
    PowMonotone(done, done + steps);
    MulMonotone(base, Pow2(done), Pow2(done + steps));
    if steps > 0 {
      PowMonotone(done + 1, done + steps);
      MulMonotone(base, Pow2(done + 1), Pow2(done + steps));
      assert base * Pow2(done) * 2 == base * Pow2(done + 1);
      DoublingBelowCap(base, max, done + 1, steps - 1);
    }
  }

  /** One wrapping round at the end of the doublings. */
  lemma {:induction false} DoublingSplit(d: int, max: int, a: nat, b: nat)
    requires Doubling(d, max, a) < max
    ensures Doubling(d, max, a + b) == Doubling(Doubling(d, max, a), max, b)
    decreases a
  {
    if a > 0 && d < max {
      DoublingSplit(WrapInt64(d * 2), max, a - 1, b);
    }
  }

  /** The least exponent whose power of two carries base to the cap. */
  lemma LeastExponent(base: nat, max: nat) returns (k: nat)
    requires 0 < base < max
    ensures k >= 1 && base * Pow2(k) >= max && base * Pow2(k - 1) < max
  {
    k := 1;
    while base * Pow2(k) < max
      invariant k >= 1 && base * Pow2(k - 1) < max
      decreases max - base * Pow2(k)
    {
      assert base * Pow2(k + 1) == base * Pow2(k) + base * Pow2(k);
      k := k + 1;
    }
  }

  /**
   * The loop computes min(base * 2^(n-1), max) for every attempt number exactly when the
   * base does not exceed the cap and some doubling reaches the cap inside int64.
   */
  lemma BackoffExact(base: nat, max: nat)
    requires 0 < base <= MAX_INT64 && 0 < max <= MAX_INT64
    ensures (forall n: nat :: n >= 1 ==> Backoff(base, max, n) == Delay(base, max, n))
            <==> (base <= max && CapReachable(base, max))
  {
    if base <= max && CapReachable(base, max) {
      var cap: nat :| max <= base * Pow2(cap) <= MAX_INT64;
      forall n: nat | n >= 1
        ensures Backoff(base, max, n) == Delay(base, max, n)
      {
        DoublingIsExact(base, max, 0, n - 1, cap);
      }
    } else if base > max {
      assert Backoff(base, max, 1) != Delay(base, max, 1);
    } else {
      OverflowingBackoff(base, max);
    }
  }

  lemma PastTheRange(base: nat, max: nat, k: nat)
    requires !CapReachable(base, max) && max <= base * Pow2(k)
    ensures base * Pow2(k) > MAX_INT64
  {
  }

  lemma WrappingRound(d: nat, max: nat)
    requires d < max <= MAX_INT64 < 2 * d
    ensures Doubling(d, max, 1) < 0
  {
    assert WrapInt64(d * 2) == d * 2 - TWO_64;
  }

  lemma CapAtBase(max: nat)
    requires max <= MAX_INT64
    ensures CapReachable(max, max)
  {
    assert max <= max * Pow2(0) <= MAX_INT64;
  }

  /** When no doubling reaches the cap in time, some attempt is given a negative delay. */
  lemma OverflowingBackoff(base: nat, max: nat)
    requires 0 < base <= max <= MAX_INT64 && !CapReachable(base, max)
    ensures exists n: nat :: n >= 1 && Backoff(base, max, n) < 0 && Delay(base, max, n) == max
  {
    if base == max {
      CapAtBase(max);
      assert false;
    }
    var k := LeastExponent(base, max);
    var last := base * Pow2(k - 1);
    assert base * Pow2(k) == 2 * last;
    PastTheRange(base, max, k);
    assert Doubling(base, max, k - 1) == last by {
      DoublingBelowCap(base, max, 0, k - 1);
    }
    DoublingSplit(base, max, k - 1, 1);
    WrappingRound(last, max);
    assert Backoff(base, max, k + 1) < 0 && Delay(base, max, k + 1) == max;
  }

  /** A cap of at most half the int64 range leaves no room for a wrap. */
  lemma HalfRangeSuffices(base: nat, max: nat)
    requires 0 < base <= max <= MAX_INT64 / 2
    ensures CapReachable(base, max)
  {
    if base == max {
      CapAtBase(max);
    } else {
      var k := LeastExponent(base, max);
      assert base * Pow2(k) == base * Pow2(k - 1) * 2;
      assert max <= base * Pow2(k) <= MAX_INT64;
    }
  }

  /** Delays never shrink with further attempts and stay between base and cap. */
  lemma DelayMonotone(base: nat, max: nat, m: nat, n: nat)
    requires 1 <= m <= n && base <= max
    ensures base <= Delay(base, max, m) <= Delay(base, max, n) <= max
  {
    PowMonotone(m - 1, n - 1);
    MulMonotone(base, Pow2(m - 1), Pow2(n - 1));
    MulMonotone(base, 1, Pow2(m - 1));
  }

  /** A base above the cap is handed out once, uncapped; every later attempt gets the cap. */
  lemma OversizedBase(base: nat, max: nat, n: nat)
    requires 0 < max < base <= MAX_INT64 && n >= 2
    ensures Backoff(base, max, 1) == base && Backoff(base, max, n) == max
  {
  }

  /** One such pair: the very first doubling leaves int64. */
  lemma BackoffOfHalfRange()
    ensures var base: nat := TWO_63 / 2; Backoff(base, MAX_INT64, 2) == -TWO_63 && Delay(base, MAX_INT64, 2) == MAX_INT64
  {
    var base: nat := TWO_63 / 2;
    assert WrapInt64(base * 2) == -TWO_63;
    assert Pow2(1) == 2;
    assert Doubling(-TWO_63, MAX_INT64, 0) == -TWO_63;
  }
}
