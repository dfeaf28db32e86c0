/** Retry with exponential backoff (retry.ts). */
module Retrying {
  datatype Retry = Retry(maxAttempts: int, initialDelayMs: real, multiplier: real, maxDelayMs: real,
                         attempts: nat, retries: nat, failures: nat, successes: nat)

  /** How the protected function ends at its i-th call, counted from 0. */
  type Tries = nat -> bool

  function Power(x: real, n: nat): real {
    if n == 0 then 1.0 else x * Power(x, n - 1)
  }

  function Exponential(r: Retry, attemptIndex: nat): real {
    r.initialDelayMs * Power(r.multiplier, attemptIndex)
  }

  function Delay(r: Retry, attemptIndex: nat): real {
    var exponential := Exponential(r, attemptIndex);
    if r.maxDelayMs < exponential then r.maxDelayMs else exponential
  }

  /** The sleep after the first `n` failures. */
  function Slept(r: Retry, n: nat): real {
    if n == 0 then 0.0 else Slept(r, n - 1) + Delay(r, n - 1)
  }

  /** The calls made from call `i` on. */
  function Calls(maxAttempts: int, tries: Tries, i: nat): nat
    decreases maxAttempts - i
  {
    if i >= maxAttempts then 0 else if tries(i) then 1 else 1 + Calls(maxAttempts, tries, i + 1)
  }

  predicate EndsWell(maxAttempts: int, tries: Tries) {
    var n := Calls(maxAttempts, tries, 0);
    n > 0 && tries(n - 1)
  }

  function Minus1(n: nat): nat {
    if n == 0 then 0 else n - 1
  }

  function Retried(r: Retry, tries: Tries): Retry {
    var n, ok := Calls(r.maxAttempts, tries, 0), EndsWell(r.maxAttempts, tries);
    r.(attempts := r.attempts + n, retries := r.retries + Minus1(n),
       successes := r.successes + (if ok then 1 else 0), failures := r.failures + (if n > 0 && !ok then 1 else 0))
  }

  /** The function is called until it works or the attempts are used up: at most maxAttempts times, and it worked at
      no call before the last. */
  lemma {:induction false} CallsMean(maxAttempts: int, tries: Tries, i: nat)
    ensures var n := Calls(maxAttempts, tries, i);
      && i + n <= (if i < maxAttempts then maxAttempts else i)
      && (n == 0 <==> i >= maxAttempts)
      && (forall j :: i <= j < i + n - 1 ==> !tries(j))
      && (n > 0 && i + n < maxAttempts ==> tries(i + n - 1))
    decreases maxAttempts - i
  {
    if i < maxAttempts && !tries(i) {
      CallsMean(maxAttempts, tries, i + 1);
    }
  }

  /** What other calls add to the counters. */
  datatype Tally = Tally(attempts: nat, retries: nat, failures: nat, successes: nat)

  function Plus(r: Retry, t: Tally): Retry {
    r.(attempts := r.attempts + t.attempts, retries := r.retries + t.retries, failures := r.failures + t.failures,
       successes := r.successes + t.successes)
  }

  function During(others: seq<Tally>, i: nat): Tally {
    if i < |others| then others[i] else Tally(0, 0, 0, 0)
  }

  /** What they add while the first `n` calls of the function are awaited. */
  function TallyOf(others: seq<Tally>, n: nat): Tally {
    if n == 0 then Tally(0, 0, 0, 0)
    else
      var t, u := TallyOf(others, n - 1), During(others, n - 1);
      Tally(t.attempts + u.attempts, t.retries + u.retries, t.failures + u.failures, t.successes + u.successes)
  }

  class RetryHandler {
    const maxAttempts: int
    const initialDelayMs: real
    const multiplier: real
    const maxDelayMs: real
    var totalAttempts: nat
    var retries: nat
    var failures: nat
    var successes: nat

    function Value(): Retry
      reads this
    {
      Retry(maxAttempts, initialDelayMs, multiplier, maxDelayMs, totalAttempts, retries, failures, successes)
    }

    constructor (maxAttempts: int, initialDelayMs: real, multiplier: real, maxDelayMs: real)
      ensures Value() == Retry(maxAttempts, initialDelayMs, multiplier, maxDelayMs, 0, 0, 0, 0)
    {
      this.maxAttempts, this.initialDelayMs := maxAttempts, initialDelayMs;
      this.multiplier, this.maxDelayMs := multiplier, maxDelayMs;
      totalAttempts, retries, failures, successes := 0, 0, 0, 0;
    }

    method RunOthers(t: Tally)
      modifies this
      ensures Value() == Plus(old(Value()), t)
    {
      totalAttempts, retries := totalAttempts + t.attempts, retries + t.retries;
      failures, successes := failures + t.failures, successes + t.successes;
    }

    /** One pass of the loop, the `attempt`-th call of the function and the sleep that follows if it fails. */
    method CallOnce(works: bool, t: Tally, attempt: nat) returns (delay: real)
      requires attempt > 0
      modifies this
      ensures Value() == Called(old(Value()), works, t, attempt)
      ensures delay == if works then 0.0 else SleepAfter(old(Value()), attempt)
    {
      hide Delay;
      delay := 0.0;
      totalAttempts := totalAttempts + 1;
      RunOthers(t);
      if works {
        successes := successes + 1;
      } else if attempt < maxAttempts {
        delay := Delay(Value(), attempt - 1);
        SameDelay(old(Value()), Value(), attempt - 1);
        retries := retries + 1;
      } else {
        failures := failures + 1;
      }
    }

    /** `others[i]` is what other calls add while the i-th call of the function, and the sleep after it, are awaited. */
    method Execute(tries: Tries, others: seq<Tally>) returns (ok: bool, calls: nat, sleptMs: real)
      modifies this
      ensures Value() == Plus(Retried(old(Value()), tries), TallyOf(others, calls))
      ensures ok == EndsWell(maxAttempts, tries) && calls == Calls(maxAttempts, tries, 0)
      ensures sleptMs == Slept(old(Value()), Minus1(calls))
    {
      ghost var r := Value();
      calls, sleptMs := 0, 0.0;
      hide Calls, Slept, Minus1, TallyOf, Plus, Ongoing, Resumed, Retried, EndsWell, Called, SleepAfter, During,
           FailedSoFar, Delay, Exponential, Power;
      CallsStep(maxAttempts, tries, 0);
      Beginning(r, tries, others);
      while calls < maxAttempts
        invariant Calls(maxAttempts, tries, 0) == calls + Calls(maxAttempts, tries, calls)
        invariant FailedSoFar(maxAttempts, tries, calls)
        invariant Value() == Plus(Ongoing(r, calls), TallyOf(others, calls))
        invariant sleptMs == Slept(r, Resumed(maxAttempts, calls))
      {
        CallsStep(maxAttempts, tries, calls);
        CallEnds(r, tries, others, calls);
        var works := tries(calls);
        var delay := CallOnce(works, During(others, calls), calls + 1);
        calls, sleptMs := calls + 1, sleptMs + delay;
        if works {
          return true, calls, sleptMs;
        }
      }
      CallsStep(maxAttempts, tries, calls);
      GaveUp(r, tries, others, calls);
      ok := false;
    }
  }

  /** The last of `n` calls failed. */
  predicate FailedSoFar(maxAttempts: int, tries: Tries, n: nat) {
    n > 0 ==> n <= maxAttempts && !tries(n - 1)
  }

  /** What one call does to the counters, with what other calls add meanwhile. */
  function Called(r: Retry, works: bool, t: Tally, attempt: nat): Retry {
    var w := Plus(r.(attempts := r.attempts + 1), t);
    if works then w.(successes := w.successes + 1)
    else if attempt < w.maxAttempts then w.(retries := w.retries + 1)
    else w.(failures := w.failures + 1)
  }

  function SleepAfter(r: Retry, attempt: nat): real
    requires attempt > 0
  {
    if attempt < r.maxAttempts then Delay(r, attempt - 1) else 0.0
  }

  /** How many of the first `n` failures were followed by another call. */
  function Resumed(maxAttempts: int, n: nat): nat {
    if n == maxAttempts && n > 0 then n - 1 else n
  }

  /** The counters after `n` failed calls. */
  function Ongoing(r: Retry, n: nat): Retry {
    var m := Resumed(r.maxAttempts, n);
    r.(attempts := r.attempts + n, retries := r.retries + m, failures := r.failures + (n - m))
  }

  lemma Beginning(r: Retry, tries: Tries, others: seq<Tally>)
    ensures FailedSoFar(r.maxAttempts, tries, 0)
    ensures Plus(Ongoing(r, 0), TallyOf(others, 0)) == r && Slept(r, Resumed(r.maxAttempts, 0)) == 0.0
  {
  }

  /** The n-th call, counted from 0. */
  lemma CallEnds(r: Retry, tries: Tries, others: seq<Tally>, n: nat)
    requires n < r.maxAttempts
    ensures var v := Plus(Ongoing(r, n), TallyOf(others, n));
      && SleepAfter(v, n + 1) == SleepAfter(r, n + 1) && Resumed(r.maxAttempts, n) == n == Minus1(n + 1)
      && if tries(n) then
           (Calls(r.maxAttempts, tries, 0) == n + 1 ==>
             && EndsWell(r.maxAttempts, tries)
             && Called(v, true, During(others, n), n + 1) == Plus(Retried(r, tries), TallyOf(others, n + 1)))
         else
           && FailedSoFar(r.maxAttempts, tries, n + 1)
           && Called(v, false, During(others, n), n + 1) == Plus(Ongoing(r, n + 1), TallyOf(others, n + 1))
           && Slept(r, Resumed(r.maxAttempts, n + 1)) == Slept(r, n) + SleepAfter(r, n + 1)
  {
    hide Calls, Power;
  }

  lemma GaveUp(r: Retry, tries: Tries, others: seq<Tally>, n: nat)
    requires n >= r.maxAttempts && Calls(r.maxAttempts, tries, 0) == n && FailedSoFar(r.maxAttempts, tries, n)
    ensures Plus(Retried(r, tries), TallyOf(others, n)) == Plus(Ongoing(r, n), TallyOf(others, n))
    ensures !EndsWell(r.maxAttempts, tries) && Resumed(r.maxAttempts, n) == Minus1(n)
  {
    hide Calls, TallyOf;
  }

  lemma CallsStep(maxAttempts: int, tries: Tries, i: nat)
    ensures Calls(maxAttempts, tries, i)
         == if i >= maxAttempts then 0 else if tries(i) then 1 else 1 + Calls(maxAttempts, tries, i + 1)
  {
  }

  lemma SameDelay(r: Retry, q: Retry, i: nat)
    requires r.initialDelayMs == q.initialDelayMs && r.multiplier == q.multiplier && r.maxDelayMs == q.maxDelayMs
    ensures Delay(r, i) == Delay(q, i)
  {
  }

  /** Every attempt ends as a success, a retry or a final failure. */
  ghost predicate Balanced(r: Retry) {
    r.attempts == r.successes + r.retries + r.failures
  }

  lemma RetriedBalances(r: Retry, tries: Tries)
    ensures Balanced(r) ==> Balanced(Retried(r, tries))
    ensures Retried(r, tries).attempts - r.attempts <= if r.maxAttempts > 0 then r.maxAttempts else 0
    ensures Retried(r, tries).failures
      == r.failures + (if r.maxAttempts > 0 && !EndsWell(r.maxAttempts, tries) then 1 else 0)
  {
    CallsMean(r.maxAttempts, tries, 0);
  }

  function Lesser(x: real, y: real): real {
    if x < y then x else y
  }

  /** The delays without the cap: the initial one, and then each `multiplier` times the one before. */
  function Uncapped(r: Retry, i: nat): real {
    if i == 0 then r.initialDelayMs else r.multiplier * Uncapped(r, i - 1)
  }

  function SumCapped(r: Retry, n: nat): real {
    if n == 0 then 0.0 else SumCapped(r, n - 1) + Lesser(Uncapped(r, n - 1), r.maxDelayMs)
  }

  /** The handler sleeps each of these delays or, if that is less, the cap. */
  lemma {:induction false} DelaysMultiply(r: Retry, n: nat)
    ensures Exponential(r, n) == Uncapped(r, n) && Delay(r, n) == Lesser(Uncapped(r, n), r.maxDelayMs)
    ensures Slept(r, n) == SumCapped(r, n)
  {
    ExponentialStep(r, n);
    if n > 0 {
      DelaysMultiply(r, n - 1);
    }
    hide Exponential;
  }

  lemma ExponentialStep(r: Retry, i: nat)
    ensures Exponential(r, i) == if i == 0 then r.initialDelayMs else r.multiplier * Exponential(r, i - 1)
  {
    if i > 0 {
      Reassociate(r.initialDelayMs, r.multiplier, Power(r.multiplier, i - 1));
    }
  }

  lemma Reassociate(x: real, y: real, z: real)
    ensures x * (y * z) == y * (x * z)
  {
  }

  /** Delays never shrink when the multiplier is at least 1, and never exceed the cap. */
  lemma {:induction false} DelaysGrow(r: Retry, i: nat, j: nat)
    requires i <= j && r.initialDelayMs >= 0.0 && r.multiplier >= 1.0
    ensures Delay(r, i) <= Delay(r, j) <= r.maxDelayMs
  {
    PowerGrows(r.multiplier, i, j);
    Scale(r.initialDelayMs, Power(r.multiplier, i), Power(r.multiplier, j));
  }

  lemma Scale(k: real, x: real, y: real)
    requires k >= 0.0 && x <= y
    ensures k * x <= k * y
  {
    assert k * (y - x) >= 0.0;
  }

  lemma {:induction false} PowerGrows(x: real, i: nat, j: nat)
    requires i <= j && x >= 1.0
    ensures 1.0 <= Power(x, i) <= Power(x, j)
    decreases j
  {
    if i < j {
      PowerGrows(x, i, j - 1);
      Scale(Power(x, j - 1), 1.0, x);
    } else if i > 0 {
      PowerGrows(x, i - 1, j - 1);
      Scale(Power(x, j - 1), 1.0, x);
    }
  }
}
