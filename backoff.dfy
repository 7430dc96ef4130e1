/** The doubling, capped retry delay (`Backoff`) that the MQTT layer
    consults between connection attempts. */
module BackoffUtil {
  import opened Config

  /** The delay `increment()` stores: the current delay doubled in 32-bit
      `unsigned long` arithmetic, replaced by the cap when it exceeds it. */
  function Doubled(current: U32, maxMs: U32): U32
  {
    var next := (current * 2) % U32Modulus;
    if next > maxMs then maxMs else next
  }

  function Pow2(n: nat): (p: nat)
    ensures p >= 1
  {
    if n == 0 then 1 else 2 * Pow2(n - 1)
  }

  /** The delay after `n` calls of `increment()` starting from `current`. */
  function DelayAfter(current: U32, maxMs: U32, n: nat): U32
  {
    if n == 0 then current else Doubled(DelayAfter(current, maxMs, n - 1), maxMs)
  }

  /** Below the overflow bound, one increment is exactly min(2 * current, max). */
  lemma DoubledIsCappedDouble(current: U32, maxMs: U32)
    requires current <= HalfULongMax
    ensures Doubled(current, maxMs) == Min(2 * current, maxMs)
  {
    assert (current * 2) % U32Modulus == current * 2;
  }

  /** The range invariant base <= current <= max survives an increment when
      the cap leaves room for doubling. */
  lemma DoubledStaysInRange(baseMs: U32, current: U32, maxMs: U32)
    requires baseMs <= current <= maxMs <= HalfULongMax
    ensures baseMs <= Doubled(current, maxMs) <= maxMs
    ensures current <= Doubled(current, maxMs)
  {
    DoubledIsCappedDouble(current, maxMs);
  }

  /** Incrementing at the cap leaves the delay at the cap. */
  lemma DoubledIdempotentAtCap(maxMs: U32)
    requires maxMs <= HalfULongMax
    ensures Doubled(maxMs, maxMs) == maxMs
    ensures forall n: nat :: DelayAfter(maxMs, maxMs, n) == maxMs
  {
    DoubledIsCappedDouble(maxMs, maxMs);
    forall n: nat ensures DelayAfter(maxMs, maxMs, n) == maxMs {
      DelayAtCapStays(maxMs, n);
    }
  }

  lemma {:induction false} DelayAtCapStays(maxMs: U32, n: nat)
    requires maxMs <= HalfULongMax
    ensures DelayAfter(maxMs, maxMs, n) == maxMs
  {
    if n > 0 {
      DelayAtCapStays(maxMs, n - 1);
      DoubledIsCappedDouble(maxMs, maxMs);
    }
  }

  /** After `n` increments from `base`, the delay is min(base * 2^n, max). */
  lemma {:induction false} DelayAfterClosedForm(baseMs: U32, maxMs: U32, n: nat)
    requires baseMs <= maxMs <= HalfULongMax
    ensures DelayAfter(baseMs, maxMs, n) == Min(baseMs * Pow2(n), maxMs)
  {
    if n > 0 {
      DelayAfterClosedForm(baseMs, maxMs, n - 1);
      var prev := DelayAfter(baseMs, maxMs, n - 1);
      DoubledIsCappedDouble(prev, maxMs);
      var x := baseMs * Pow2(n - 1);
      DoubleProduct(baseMs, Pow2(n - 1));
      CappedTwice(x, maxMs);
    }
  }

  lemma DoubleProduct(a: nat, p: nat)
    ensures a * (2 * p) == 2 * (a * p)
  {
  }

  /** Doubling a capped value and capping again is capping the double. */
  lemma CappedTwice(x: int, m: int)
    requires x >= 0 && m >= 0
    ensures Min(2 * Min(x, m), m) == Min(2 * x, m)
  {
  }

  /** The overflow bound is needed: doubling 2^31 wraps to 0 and, being
      below the cap, is stored, so the delay collapses to zero. */
  lemma DoubledWrapsAboveHalf()
    ensures Doubled(0x8000_0000, 0xFFFF_FFFF) == 0
  {
  }

  class Backoff {
    const baseMs: U32
    const maxMs: U32
    var currentMs: U32

    /** base <= current <= max, whenever the configuration allows it. */
    ghost predicate InRange()
      reads this
    {
      baseMs <= maxMs <= HalfULongMax ==> baseMs <= currentMs <= maxMs
    }

    constructor (baseMs: U32, maxMs: U32)
      ensures this.baseMs == baseMs && this.maxMs == maxMs
      ensures currentMs == baseMs
      ensures InRange()
    {
      this.baseMs := baseMs;
      this.maxMs := maxMs;
      currentMs := baseMs;
    }

    /** The delay to wait before the next attempt; changes nothing. */
    method GetNextDelay() returns (d: U32)
      ensures d == currentMs
    {
      d := currentMs;
    }

    method Reset()
      modifies this
      ensures currentMs == baseMs
      ensures InRange()
    {
      currentMs := baseMs;
    }

    method Increment()
      requires InRange()
      modifies this
      ensures currentMs == Doubled(old(currentMs), maxMs)
      ensures InRange()
    {
      var next := (currentMs * 2) % U32Modulus;
      if next > maxMs {
        currentMs := maxMs;
      } else {
        currentMs := next;
      }
      if baseMs <= maxMs <= HalfULongMax {
        DoubledStaysInRange(baseMs, old(currentMs), maxMs);
      }
    }
  }
}
