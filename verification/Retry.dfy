/** Retrying with exponential backoff (src/utils/retry.ts). */
module Retry {
  import opened Wrappers

  function Pow2(n: nat): nat {
    if n == 0 then 1 else 2 * Pow2(n - 1)
  }

  function Sum(delays: seq<int>): int {
    if delays == [] then 0 else Sum(delays[..|delays| - 1]) + delays[|delays| - 1]
  }

  /** The sleep after the i-th failed call. */
  function Delay(i: nat, minDelayMs: int, maxDelayMs: int): int {
    Min(minDelayMs * Pow2(i), maxDelayMs)
  }

  /** The first sleep is the smallest delay and each next one twice as long, all cut off at the largest delay. */
  lemma DelaysDouble(i: nat, minDelayMs: int, maxDelayMs: int)
    requires minDelayMs >= 0 && maxDelayMs >= 0
    ensures Delay(0, minDelayMs, maxDelayMs) == Min(minDelayMs, maxDelayMs)
    ensures Delay(i + 1, minDelayMs, maxDelayMs) == Min(2 * Delay(i, minDelayMs, maxDelayMs), maxDelayMs)
  {
    Doubling(minDelayMs, Pow2(i));
    Pow2Grows(i, i);
    assert minDelayMs * Pow2(i) >= 0;
  }

  lemma Doubling(a: int, p: int)
    ensures a * (2 * p) == 2 * (a * p)
  {
  }

  lemma {:induction false} Pow2Grows(i: nat, j: nat)
    requires i <= j
    ensures 1 <= Pow2(i) <= Pow2(j)
    decreases j
  {
    if j > 0 {
      Pow2Grows(if i == j then j - 1 else i, j - 1);
    }
  }

  /** Sleeps never get shorter. */
  lemma DelaysGrow(i: nat, j: nat, minDelayMs: int, maxDelayMs: int)
    requires i <= j && minDelayMs >= 0 && maxDelayMs >= 0
    ensures 0 <= Delay(i, minDelayMs, maxDelayMs) <= Delay(j, minDelayMs, maxDelayMs)
  {
    Pow2Grows(i, j);
    Scaled(minDelayMs, Pow2(i), Pow2(j));
  }

  lemma Scaled(a: int, b: int, c: int)
    requires 0 <= a && 0 <= b <= c
    ensures 0 <= a * b <= a * c
  {
  }

  /** All sleeps together stay under both bounds. */
  lemma {:induction false} SleepBounded(delays: seq<int>, minDelayMs: int, maxDelayMs: int)
    requires forall i :: 0 <= i < |delays| ==> delays[i] == Delay(i, minDelayMs, maxDelayMs)
    ensures Sum(delays) <= minDelayMs * (Pow2(|delays|) - 1)
    ensures Sum(delays) <= |delays| * maxDelayMs
  {
    if delays != [] {
      var n := |delays| - 1;
      SleepBounded(delays[..n], minDelayMs, maxDelayMs);
      Doubled(minDelayMs, Pow2(n));
      assert (n + 1) * maxDelayMs == n * maxDelayMs + maxDelayMs;
    }
  }

  lemma Doubled(a: int, p: int)
    ensures a * (p - 1) + a * p == a * (2 * p - 1)
  {
  }

  /**
   `outcomes(i)` is what the i-th call of the function gives. The calls stop at
   the first success or after `retries` repetitions; each sleep between them is
   twice the one before, up to the largest delay, and together they stay under
   both bounds.
   */
  method WithRetry<T>(outcomes: nat -> Result<T>, retries: int, minDelayMs: int, maxDelayMs: int)
    returns (result: Result<T>, calls: nat, delays: seq<int>)
    ensures retries < 0 ==> calls == 0 && result.Err?
    ensures retries >= 0 ==> 1 <= calls <= retries + 1 && result == outcomes(calls - 1)
    ensures forall i: nat :: i + 1 < calls ==> outcomes(i).Err?
    ensures result.Err? && retries >= 0 ==> calls == retries + 1
    ensures |delays| == if calls == 0 then 0 else calls - 1
    ensures minDelayMs >= 0 && maxDelayMs >= 0 ==>
              forall i, j :: 0 <= i <= j < |delays| ==> 0 <= delays[i] <= delays[j]
    ensures delays != [] ==> delays[0] == if minDelayMs <= maxDelayMs then minDelayMs else maxDelayMs
    ensures minDelayMs >= 0 && maxDelayMs >= 0 ==>
              forall i :: 0 <= i < |delays| - 1 ==>
                delays[i + 1] == if 2 * delays[i] <= maxDelayMs then 2 * delays[i] else maxDelayMs
    ensures Sum(delays) <= minDelayMs * (Pow2(|delays|) - 1) && Sum(delays) <= |delays| * maxDelayMs
  {
    result, calls, delays := Err("never called"), 0, [];
    var power := 1;
    var attempt := 0;
    while attempt <= retries
      invariant attempt == calls == |delays| && power == Pow2(attempt)
      invariant attempt <= retries || (retries < 0 && attempt == 0)
      invariant result.Err? && (forall i: nat :: i < attempt ==> outcomes(i).Err?)
      invariant forall i :: 0 <= i < |delays| ==> delays[i] == Delay(i, minDelayMs, maxDelayMs)
      decreases retries - attempt
    {
      calls := calls + 1;
      result := outcomes(attempt);
      var attemptsLeft := retries - attempt;
      if result.Ok? || attemptsLeft <= 0 {
        break;
      }
      delays := delays + [Min(minDelayMs * power, maxDelayMs)];
      power := 2 * power;
      attempt := attempt + 1;
    }
    SleepBounded(delays, minDelayMs, maxDelayMs);
    if minDelayMs >= 0 && maxDelayMs >= 0 {
      forall i, j | 0 <= i <= j < |delays| ensures 0 <= delays[i] <= delays[j] {
        DelaysGrow(i, j, minDelayMs, maxDelayMs);
      }
      forall i | 0 <= i < |delays| - 1 ensures delays[i + 1] == Min(2 * delays[i], maxDelayMs) {
        DelaysDouble(i, minDelayMs, maxDelayMs);
      }
    }
  }
}
