/** Retry and reconnect delays. */
module Backoff {

  const RECONNECT_MIN_MS: nat := 200
  const RECONNECT_MAX_MS: nat := 5000

  function Pow2(n: nat): (p: nat)
    ensures p >= 1
  {
    if n == 0 then 1 else 2 * Pow2(n - 1)
  }

  /** The wait before the next attempt, once `attemptsMade` have failed. */
  function RetryDelay(delayMs: nat, attemptsMade: nat): nat
    requires attemptsMade >= 1
  {
    delayMs * Pow2(attemptsMade - 1)
  }

  /** The waits between `attempts` attempts, added up. */
  function TotalBackoff(delayMs: nat, attempts: nat): nat {
    if attempts <= 1 then 0 else TotalBackoff(delayMs, attempts - 1) + RetryDelay(delayMs, attempts - 1)
  }

  lemma {:induction false} TotalBackoffIsGeometric(delayMs: nat, attempts: nat)
    requires attempts >= 1
    ensures TotalBackoff(delayMs, attempts) == delayMs * (Pow2(attempts - 1) - 1)
  {
    if attempts > 1 {
      TotalBackoffIsGeometric(delayMs, attempts - 1);
      var p := Pow2(attempts - 2);
      assert delayMs * (p - 1) + delayMs * p == delayMs * (2 * p - 1);
    }
  }

  function ReconnectCeiling(times: nat): nat
    requires times >= 1
  {
    var exponential := RECONNECT_MIN_MS * Pow2(times - 1);
    if exponential <= RECONNECT_MAX_MS then exponential else RECONNECT_MAX_MS
  }

  /** What a random draw can be: from 0 up to but not including 1. */
  predicate IsDraw(draw: real) {
    0.0 <= draw < 1.0
  }

  /**
   The reconnect delay of a try, for a random draw. Halving is exact because every ceiling is
   even, so the delay is a whole number of milliseconds.
   */
  function ReconnectDelay(times: nat, draw: real): int
    requires times >= 1 && IsDraw(draw)
  {
    CeilingIsEven(times);
    var half := ReconnectCeiling(times) / 2;
    assert 2 * half == ReconnectCeiling(times);
    half + (draw * half as real).Floor
  }

  lemma CeilingsOfFirstTries()
    ensures ReconnectCeiling(1) == 200 && ReconnectCeiling(2) == 400 && ReconnectCeiling(3) == 800
    ensures ReconnectCeiling(4) == 1600 && ReconnectCeiling(5) == 3200
  {
    assert Pow2(1) == 2 && Pow2(2) == 4 && Pow2(3) == 8 && Pow2(4) == 16;
  }

  lemma {:induction false} CeilingIsFlatAfterFive(times: nat)
    requires times >= 6
    ensures Pow2(times - 1) >= 32 && ReconnectCeiling(times) == 5000
  {
    if times == 6 {
      assert Pow2(1) == 2 && Pow2(2) == 4 && Pow2(3) == 8 && Pow2(4) == 16;
    } else {
      CeilingIsFlatAfterFive(times - 1);
    }
  }

  lemma CeilingIsEven(times: nat)
    requires times >= 1
    ensures ReconnectCeiling(times) % 2 == 0 && 200 <= ReconnectCeiling(times) <= 5000
  {
    CeilingsOfFirstTries();
    if times >= 6 {
      CeilingIsFlatAfterFive(times);
    }
  }

  lemma FloorOfScaledDraw(draw: real, half: nat)
    requires IsDraw(draw) && half > 0
    ensures 0 <= (draw * half as real).Floor < half
  {
    assert (1.0 - draw) * half as real > 0.0;
    FloorBelow(draw * half as real, half);
  }

  lemma FloorBelow(x: real, h: nat)
    requires 0.0 <= x < h as real
    ensures 0 <= x.Floor < h
  {
  }

  /** Every reconnect delay is in the upper half of its ceiling, so between 100 and 4999. */
  lemma DelayInUpperHalf(times: nat, draw: real)
    requires times >= 1 && IsDraw(draw)
    ensures var d := ReconnectDelay(times, draw);
            ReconnectCeiling(times) <= 2 * d && d < ReconnectCeiling(times) && 100 <= d <= 4999
  {
    CeilingIsEven(times);
    FloorOfScaledDraw(draw, ReconnectCeiling(times) / 2);
  }

  /** The ceilings double from 200 milliseconds to 3200, and are 5000 from the sixth try on. */
  lemma CeilingOfTry(times: nat)
    requires times >= 1
    ensures ReconnectCeiling(times)
         == if times == 1 then 200 else if times == 2 then 400 else if times == 3 then 800
            else if times == 4 then 1600 else if times == 5 then 3200 else 5000
  {
    CeilingsOfFirstTries();
    if times >= 6 {
      CeilingIsFlatAfterFive(times);
    }
  }

  /** Every whole delay in the upper half of the ceiling is drawn by some draw, so the jitter is full. */
  lemma EveryDelayIsDrawn(times: nat, delay: nat) returns (draw: real)
    requires times >= 1 && ReconnectCeiling(times) <= 2 * delay && delay < ReconnectCeiling(times)
    ensures IsDraw(draw) && ReconnectDelay(times, draw) == delay
  {
    CeilingIsEven(times);
    var half := ReconnectCeiling(times) / 2;
    assert 2 * half == ReconnectCeiling(times);
    var over := delay - half;
    draw := over as real / half as real;
    assert draw * half as real == over as real;
    FractionIsDraw(over, half);
  }

  lemma FractionIsDraw(over: nat, half: nat)
    requires over < half
    ensures 0.0 <= over as real / half as real < 1.0
  {
    var draw := over as real / half as real;
    assert draw * half as real == over as real;
    assert (1.0 - draw) * half as real == half as real - over as real > 0.0;
  }

  /** A try is sure to wait longer than the one before, whatever is drawn, exactly over the first five. */
  lemma SurelyIncreasesIff(times: nat)
    requires times >= 1
    ensures (forall a: real, b: real :: IsDraw(a) && IsDraw(b) ==>
               ReconnectDelay(times, a) < ReconnectDelay(times + 1, b))
       <==> times <= 4
  {
    CeilingsOfFirstTries();
    if times <= 4 {
      forall a: real, b: real | IsDraw(a) && IsDraw(b)
        ensures ReconnectDelay(times, a) < ReconnectDelay(times + 1, b)
      {
        DelayInUpperHalf(times, a);
        DelayInUpperHalf(times + 1, b);
      }
    } else {
      CeilingIsFlatAfterFive(times + 1);
      if times >= 6 {
        CeilingIsFlatAfterFive(times);
      }
      var half := ReconnectCeiling(times) / 2;
      assert IsDraw(0.9375) && IsDraw(0.0);
      assert half == 1600 || half == 2500;
      assert 0.9375 * 1600 as real == 1500.0 && 0.9375 * 2500 as real == 2343.75;
      assert ReconnectDelay(times, 0.9375) >= 3100;
      assert ReconnectDelay(times + 1, 0.0) == 2500;
    }
  }
}
