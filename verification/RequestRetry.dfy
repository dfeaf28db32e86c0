/** The retry loop of the FamilySearch adapter (FamilySearchAdapter.ts, `request`): 429 as in section 4 of RFC 6585,
    Retry-After in seconds as in section 10.2.3 of RFC 9110. */
module RequestRetry {
  import opened Strings

  /** `retryAfter` is the header as a number, None when that is not finite. */
  datatype Answer = NetworkError | Http(status: int, retryAfter: Option<real>)

  datatype Config = Config(retries: int, maxRateLimitRetries: int, maxRetryAfterMs: real)

  datatype Counters = Counters(authRetried: bool, rateLimited: nat, transient: nat)

  datatype Failure = NoResponse | Merged | Deleted | ApiError(status: int)

  datatype Verdict = Return | Fail(failure: Failure) | Again(sleepMs: real, counters: Counters)

  const DEFAULT_RETRY_AFTER_MS := 5000.0

  function Pow2(n: nat): (p: nat)
    ensures p >= 1
  {
    if n == 0 then 1 else 2 * Pow2(n - 1)
  }

  function RetryAfterMs(cfg: Config, header: Option<real>): real {
    var ms := if header.Some? && header.value >= 0.0 then header.value * 1000.0 else DEFAULT_RETRY_AFTER_MS;
    if ms < cfg.maxRetryAfterMs then ms else cfg.maxRetryAfterMs
  }

  function BackoffMs(transient: nat): real {
    (Pow2(transient) * 100) as real
  }

  predicate Accepted(write: bool, status: int) {
    if write then status == 201 || status == 204 else 200 <= status < 300
  }

  /** What one answer leads to. */
  function Decide(cfg: Config, write: bool, c: Counters, a: Answer): Verdict {
    match a
    case NetworkError =>
      if write then Fail(NoResponse)
      else if c.transient + 1 >= cfg.retries then Fail(NoResponse)
      else Again(BackoffMs(c.transient + 1), c.(transient := c.transient + 1))
    case Http(status, retryAfter) =>
      if Accepted(write, status) then Return
      else if status == 301 then Fail(Merged)
      else if status == 410 then Fail(Deleted)
      else if status == 401 && !c.authRetried then Again(0.0, c.(authRetried := true))
      else if status == 429 && c.rateLimited < cfg.maxRateLimitRetries then
        Again(RetryAfterMs(cfg, retryAfter), c.(rateLimited := c.rateLimited + 1))
      else if !write && status >= 500 && c.transient + 1 < cfg.retries then
        Again(BackoffMs(c.transient + 1), c.(transient := c.transient + 1))
      else Fail(ApiError(status))
  }

  function AtLeastZero(n: int): nat {
    if n < 0 then 0 else n
  }

  /** What is left of the three budgets. */
  function Budget(cfg: Config, c: Counters): nat {
    (if c.authRetried then 0 else 1) + AtLeastZero(cfg.maxRateLimitRetries - c.rateLimited)
    + AtLeastZero(cfg.retries - 1 - c.transient)
  }

  /** Every further attempt uses up one unit of the budget. */
  lemma BudgetShrinks(cfg: Config, write: bool, c: Counters, a: Answer)
    ensures var v := Decide(cfg, write, c, a);
      v.Again? ==> Budget(cfg, v.counters) == Budget(cfg, c) - 1
  {
  }

  /** A server answers the i-th attempt with `server(i)`. */
  type Server = nat -> Answer

  datatype Trace = Trace(verdict: Verdict, attempts: nat, sleptMs: real, counters: Counters)

  /** The run from attempt `k` on. */
  function RunFrom(cfg: Config, write: bool, server: Server, c: Counters, k: nat): (t: Trace)
    ensures !t.verdict.Again?
    decreases Budget(cfg, c)
  {
    var v := Decide(cfg, write, c, server(k));
    match v
    case Again(ms, next) =>
      BudgetShrinks(cfg, write, c, server(k));
      var rest := RunFrom(cfg, write, server, next, k + 1);
      rest.(attempts := rest.attempts + 1, sleptMs := rest.sleptMs + ms)
    case _ => Trace(v, 1, 0.0, c)
  }

  const START := Counters(false, 0, 0)

  function Run(cfg: Config, write: bool, server: Server): Trace {
    RunFrom(cfg, write, server, START, 0)
  }

  // ----- at most once ----------------------------------------------------

  predicate Refused(a: Answer) {
    a.Http? && (a.status == 401 || a.status == 429)
  }

  /** A write is sent again only after a 401 or a 429, so never after a network error, a 5xx or any 2xx. */
  lemma {:induction false} WritesResentOnlyWhenRefused(cfg: Config, server: Server, c: Counters, k: nat)
    ensures forall j :: k <= j < k + RunFrom(cfg, true, server, c, k).attempts - 1 ==> Refused(server(j))
    decreases Budget(cfg, c)
  {
    var v := Decide(cfg, true, c, server(k));
    if v.Again? {
      BudgetShrinks(cfg, true, c, server(k));
      WritesResentOnlyWhenRefused(cfg, server, v.counters, k + 1);
    }
  }

  // ----- the run in terms of the answers alone ----------------------------

  predicate Unauthorised(a: Answer) {
    a.Http? && a.status == 401
  }

  predicate TooMany(a: Answer) {
    a.Http? && a.status == 429
  }

  predicate Failing(a: Answer) {
    a.NetworkError? || a.status >= 500
  }

  /** How many of the first `n` answers are of a kind. */
  function Count(server: Server, n: nat, kind: Answer -> bool): nat {
    if n == 0 then 0 else Count(server, n - 1, kind) + if kind(server(n - 1)) then 1 else 0
  }

  /** Whether answer `j` is followed by another attempt: one 401 is forgiven, so many 429s, and for reads so many
      failures; every other answer ends the request. */
  predicate Resent(cfg: Config, write: bool, server: Server, j: nat) {
    var a := server(j);
    || (Unauthorised(a) && Count(server, j, Unauthorised) == 0)
    || (TooMany(a) && Count(server, j, TooMany) < cfg.maxRateLimitRetries)
    || (Failing(a) && !write && Count(server, j, Failing) + 1 < cfg.retries)
  }

  /** 200 ms after the first failure, twice as much after each further one. */
  function Doubling(earlier: nat): real {
    if earlier == 0 then 200.0 else 2.0 * Doubling(earlier - 1)
  }

  /** The sleep after answer `j` in ms: the header counts seconds, up to the cap; five seconds if it is unusable. */
  function Wait(cfg: Config, server: Server, j: nat): real {
    match server(j)
    case Http(429, Some(seconds)) => Lesser(if seconds < 0.0 then 5000.0 else 1000.0 * seconds, cfg.maxRetryAfterMs)
    case Http(429, None) => Lesser(5000.0, cfg.maxRetryAfterMs)
    case Http(401, _) => 0.0
    case _ => Doubling(Count(server, j, Failing))
  }

  function Lesser(x: real, y: real): real {
    if x < y then x else y
  }

  function TotalWait(cfg: Config, server: Server, n: nat): real {
    if n == 0 then 0.0 else TotalWait(cfg, server, n - 1) + Wait(cfg, server, n - 1)
  }

  /** The verdict by the last answer. */
  predicate EndsWith(write: bool, verdict: Verdict, last: Answer) {
    match last
    case NetworkError => verdict == Fail(NoResponse)
    case Http(status, _) =>
      && (verdict == Return <==> if write then status in {201, 204} else 200 <= status <= 299)
      && (verdict == Fail(Merged) <==> status == 301)
      && (verdict == Fail(Deleted) <==> status == 410)
      && (verdict.Return? || verdict in {Fail(Merged), Fail(Deleted), Fail(ApiError(status))})
  }

  /** Where the counters stand after `k` answers. */
  function Tally(server: Server, k: nat): Counters {
    Counters(Count(server, k, Unauthorised) > 0, Count(server, k, TooMany), Count(server, k, Failing))
  }

  lemma Pow2Doubles(n: nat)
    ensures Pow2(n + 1) == 2 * Pow2(n)
  {
  }

  lemma {:induction false} BackoffDoubles(n: nat)
    ensures BackoffMs(n + 1) == Doubling(n)
  {
    if n > 0 {
      BackoffDoubles(n - 1);
      Pow2Doubles(n);
    } else {
      assert Pow2(1) == 2;
    }
  }

  lemma AnswerDecides(cfg: Config, write: bool, server: Server, k: nat)
    ensures var v := Decide(cfg, write, Tally(server, k), server(k));
      && (v.Again? <==> Resent(cfg, write, server, k))
      && (v.Again? ==> v.counters == Tally(server, k + 1) && v.sleepMs == Wait(cfg, server, k))
      && (!v.Again? ==> EndsWith(write, v, server(k)))
  {
    BackoffDoubles(Count(server, k, Failing));
    hide BackoffMs, Doubling;
  }

  /** Every run is determined by the answers alone: which of them are followed by another attempt, how long it sleeps
      in all and how it ends. */
  lemma {:induction false} RunMeans(cfg: Config, write: bool, server: Server, k: nat)
    ensures var t := RunFrom(cfg, write, server, Tally(server, k), k); var last := k + t.attempts - 1;
      && t.attempts >= 1
      && (forall j: nat :: k <= j < last ==> Resent(cfg, write, server, j)) && !Resent(cfg, write, server, last)
      && t.sleptMs == TotalWait(cfg, server, last) - TotalWait(cfg, server, k)
      && EndsWith(write, t.verdict, server(last))
    decreases Budget(cfg, Tally(server, k))
  {
    AnswerDecides(cfg, write, server, k);
    var c := Tally(server, k);
    BudgetShrinks(cfg, write, c, server(k));
    if Decide(cfg, write, c, server(k)).Again? {
      RunMeans(cfg, write, server, k + 1);
    }
    hide Decide, Resent, EndsWith, Tally, Wait, Budget;
  }

  /** What the answers say about a request: an answer is followed by another attempt exactly when it may be retried and
      the budget for it is left, the sleep is what those answers ask for, and the last answer decides the outcome. */
  predicate Explained(cfg: Config, write: bool, server: Server, verdict: Verdict, attempts: nat, sleptMs: real) {
    && attempts >= 1
    && (forall j: nat :: j < attempts ==> (j + 1 < attempts <==> Resent(cfg, write, server, j)))
    && sleptMs == TotalWait(cfg, server, attempts - 1)
    && EndsWith(write, verdict, server(attempts - 1))
  }

  lemma AnswersExplainRun(cfg: Config, write: bool, server: Server)
    ensures var t := Run(cfg, write, server); Explained(cfg, write, server, t.verdict, t.attempts, t.sleptMs)
  {
    RunMeans(cfg, write, server, 0);
    hide Resent, EndsWith;
  }

  // ----- the loop ---------------------------------------------------------

  lemma RunIs(cfg: Config, write: bool, server: Server)
    ensures Run(cfg, write, server) == RunFrom(cfg, write, server, START, 0)
  {
  }

  method Request(cfg: Config, write: bool, server: Server) returns (verdict: Verdict, attempts: nat, sleptMs: real)
    ensures verdict == Run(cfg, write, server).verdict && attempts == Run(cfg, write, server).attempts
    ensures sleptMs == Run(cfg, write, server).sleptMs
    ensures Explained(cfg, write, server, verdict, attempts, sleptMs)
  {
    AnswersExplainRun(cfg, write, server);
    hide Explained, Run, BackoffMs, RetryAfterMs, Accepted, Pow2, Budget;
    assert Run(cfg, write, server) == RunFrom(cfg, write, server, START, 0) by { RunIs(cfg, write, server); }
    var authRetried, rateLimited, transient := false, 0, 0;
    attempts, sleptMs := 0, 0.0;
    while true
      invariant rateLimited >= 0 && transient >= 0
      invariant var rest := RunFrom(cfg, write, server, Counters(authRetried, rateLimited, transient), attempts);
        Run(cfg, write, server) == rest.(attempts := attempts + rest.attempts, sleptMs := sleptMs + rest.sleptMs)
      decreases Budget(cfg, Counters(authRetried, rateLimited, transient))
    {
      var answer := server(attempts);
      BudgetShrinks(cfg, write, Counters(authRetried, rateLimited, transient), answer);
      attempts := attempts + 1;
      if answer.NetworkError? {
        if write {
          return Fail(NoResponse), attempts, sleptMs;
        }
        transient := transient + 1;
        if transient >= cfg.retries {
          return Fail(NoResponse), attempts, sleptMs;
        }
        sleptMs := sleptMs + BackoffMs(transient);
        continue;
      }
      var status := answer.status;
      if Accepted(write, status) {
        return Return, attempts, sleptMs;
      }
      if status == 301 {
        return Fail(Merged), attempts, sleptMs;
      }
      if status == 410 {
        return Fail(Deleted), attempts, sleptMs;
      }
      if status == 401 && !authRetried {
        authRetried := true;
        continue;
      }
      if status == 429 && rateLimited < cfg.maxRateLimitRetries {
        rateLimited := rateLimited + 1;
        sleptMs := sleptMs + RetryAfterMs(cfg, answer.retryAfter);
        continue;
      }
      if !write && status >= 500 && transient + 1 < cfg.retries {
        transient := transient + 1;
        sleptMs := sleptMs + BackoffMs(transient);
        continue;
      }
      return Fail(ApiError(status)), attempts, sleptMs;
    }
  }

  // ----- bounds ----------------------------------------------------------

  /** Each attempt but the last uses exactly one unit of one of the three counters. */
  lemma {:induction false} AttemptsCounted(cfg: Config, write: bool, server: Server, c: Counters, k: nat)
    ensures var t := RunFrom(cfg, write, server, c, k); var d := t.counters;
      && t.attempts == 1 + (Budget(cfg, c) - Budget(cfg, d))
      && (write ==> d.transient == c.transient)
      && c.rateLimited <= d.rateLimited && c.transient <= d.transient
      && (d.rateLimited > c.rateLimited ==> d.rateLimited <= cfg.maxRateLimitRetries)
      && (d.transient > c.transient ==> d.transient < cfg.retries)
    decreases Budget(cfg, c)
  {
    var v := Decide(cfg, write, c, server(k));
    if v.Again? {
      BudgetShrinks(cfg, write, c, server(k));
      AttemptsCounted(cfg, write, server, v.counters, k + 1);
    }
  }

  /** The most that rate limits and backoffs can add to the sleep while the counters go from `c` to `d`. */
  ghost function SleepBound(c: Counters, d: Counters, m: real): real {
    Times(d.rateLimited - c.rateLimited, m) + (200 * (Pow2(d.transient) - Pow2(c.transient))) as real
  }

  function Times(n: int, m: real): real {
    n as real * m
  }

  lemma OneMore(n: int, m: real)
    ensures Times(n + 1, m) == Times(n, m) + m
  {
    assert (n + 1) as real == n as real + 1.0;
  }

  lemma BoundAfterRateLimit(c: Counters, d: Counters, m: real)
    ensures SleepBound(c, d, m) == SleepBound(c.(rateLimited := c.rateLimited + 1), d, m) + m
  {
    OneMore(d.rateLimited - c.rateLimited - 1, m);
  }

  lemma BoundAfterBackoff(c: Counters, d: Counters, m: real)
    ensures SleepBound(c, d, m) == SleepBound(c.(transient := c.transient + 1), d, m) + BackoffMs(c.transient + 1)
  {
    Pow2Doubles(c.transient);
  }

  /** The ways on: after a 401, after a 429 and after a failed read. */
  lemma AgainMeans(cfg: Config, write: bool, c: Counters, a: Answer)
    requires Decide(cfg, write, c, a).Again?
    ensures var v := Decide(cfg, write, c, a);
      || (v.counters == c.(authRetried := true) && v.sleepMs == 0.0)
      || (v.counters == c.(rateLimited := c.rateLimited + 1) && v.sleepMs <= cfg.maxRetryAfterMs
          && (cfg.maxRetryAfterMs >= 0.0 ==> v.sleepMs >= 0.0))
      || (v.counters == c.(transient := c.transient + 1) && v.sleepMs == BackoffMs(c.transient + 1) && !write)
  {
  }

  lemma {:induction false} SleepCounted(cfg: Config, write: bool, server: Server, c: Counters, k: nat)
    requires cfg.maxRetryAfterMs >= 0.0
    ensures var t := RunFrom(cfg, write, server, c, k);
      0.0 <= t.sleptMs <= SleepBound(c, t.counters, cfg.maxRetryAfterMs)
    decreases Budget(cfg, c)
  {
    var v := Decide(cfg, write, c, server(k));
    if v.Again? {
      BudgetShrinks(cfg, write, c, server(k));
      SleepCounted(cfg, write, server, v.counters, k + 1);
      AgainMeans(cfg, write, c, server(k));
      var t := RunFrom(cfg, write, server, c, k);
      assert t.sleptMs == v.sleepMs + RunFrom(cfg, write, server, v.counters, k + 1).sleptMs;
      assert t.counters == RunFrom(cfg, write, server, v.counters, k + 1).counters;
      BoundAfterRateLimit(c, t.counters, cfg.maxRetryAfterMs);
      BoundAfterBackoff(c, t.counters, cfg.maxRetryAfterMs);
      hide *;
    }
  }

  lemma {:induction false} Pow2Grows(m: nat, n: nat)
    requires m <= n
    ensures Pow2(m) <= Pow2(n)
  {
    if m < n {
      Pow2Grows(m, n - 1);
    }
  }

  function Retries(cfg: Config): (r: nat)
    ensures r >= 1
  {
    if cfg.retries < 1 then 1 else cfg.retries
  }

  /** With R retries (at least one) and L rate-limit retries the loop makes at most L+2 attempts for a write and
      R+L+1 for a read, and sleeps at most L*maxRetryAfterMs + 100*(2^R - 2) ms in all. */
  lemma RequestBounds(cfg: Config, write: bool, server: Server)
    requires cfg.maxRetryAfterMs >= 0.0
    ensures var t, rate, retries := Run(cfg, write, server), AtLeastZero(cfg.maxRateLimitRetries), Retries(cfg);
      && t.attempts <= (if write then rate + 2 else retries + rate + 1)
      && 0.0 <= t.sleptMs <= Times(rate, cfg.maxRetryAfterMs)
                             + (if write then 0.0 else (100 * (Pow2(retries) - 2)) as real)
  {
    var d := Run(cfg, write, server).counters;
    AttemptsCounted(cfg, write, server, START, 0);
    SleepCounted(cfg, write, server, START, 0);
    LongestSleep(cfg, write, d);
    hide RunFrom, Decide, SleepBound, Pow2;
  }

  lemma LongestSleep(cfg: Config, write: bool, d: Counters)
    requires cfg.maxRetryAfterMs >= 0.0
    requires d.rateLimited <= AtLeastZero(cfg.maxRateLimitRetries) && d.transient < Retries(cfg)
      && (write ==> d.transient == 0)
    ensures SleepBound(START, d, cfg.maxRetryAfterMs)
         <= Times(AtLeastZero(cfg.maxRateLimitRetries), cfg.maxRetryAfterMs)
      + (if write then 0.0 else (100 * (Pow2(Retries(cfg)) - 2)) as real)
  {
    LongestBackoff(write, d.transient, Retries(cfg));
    Monotone(d.rateLimited, AtLeastZero(cfg.maxRateLimitRetries), cfg.maxRetryAfterMs);
    assert Pow2(START.transient) == 1;
    hide Pow2, AtLeastZero, Retries, Times;
  }

  lemma LongestBackoff(write: bool, transient: nat, retries: nat)
    requires transient < retries && (write ==> transient == 0)
    ensures 200 * (Pow2(transient) - 1) <= if write then 0 else 100 * (Pow2(retries) - 2)
  {
    Pow2Grows(transient, retries - 1);
    Pow2Doubles(retries - 1);
  }

  lemma Monotone(a: int, b: int, m: real)
    requires a <= b && m >= 0.0
    ensures Times(a, m) <= Times(b, m)
  {
    assert (b - a) as real * m >= 0.0;
    assert b as real == a as real + (b - a) as real;
  }

  // ----- the bounds are attained -----------------------------------------

  /** One 401, then `rate` rate limits asking for the longest wait, then server errors. */
  function WorstServer(cfg: Config): Server {
    (i: nat) => if i == 0 then Http(401, None)
                else if i <= AtLeastZero(cfg.maxRateLimitRetries) then Http(429, Some(cfg.maxRetryAfterMs))
                else Http(500, None)
  }

  /** Where a run against that server is before attempt `k`. */
  ghost predicate OnWorstPath(cfg: Config, write: bool, c: Counters, k: nat) {
    var rate := AtLeastZero(cfg.maxRateLimitRetries);
    && k >= 1 && c.authRetried
    && if k <= rate then c.rateLimited == k - 1 && c.transient == 0
       else
         && c.rateLimited == rate && c.transient == k - 1 - rate && c.transient < Retries(cfg)
         && (write ==> c.transient == 0)
  }

  lemma WorstStep(cfg: Config, write: bool, c: Counters, k: nat)
    requires OnWorstPath(cfg, write, c, k)
    ensures var rate, v := AtLeastZero(cfg.maxRateLimitRetries), Decide(cfg, write, c, WorstServer(cfg)(k));
      if k <= rate && cfg.maxRetryAfterMs >= 0.0 then
        v == Again(cfg.maxRetryAfterMs, c.(rateLimited := c.rateLimited + 1))
      else if k <= rate then v.Again?
      else if !write && c.transient + 1 < Retries(cfg)
        then v == Again(BackoffMs(c.transient + 1), c.(transient := c.transient + 1))
      else v.Fail?
    ensures var v := Decide(cfg, write, c, WorstServer(cfg)(k));
      v.Again? && cfg.maxRetryAfterMs >= 0.0 ==> OnWorstPath(cfg, write, v.counters, k + 1)
  {
  }

  lemma {:induction false} WorstRun(cfg: Config, write: bool, c: Counters, k: nat)
    requires cfg.maxRetryAfterMs >= 0.0 && OnWorstPath(cfg, write, c, k)
    ensures var t, rate := RunFrom(cfg, write, WorstServer(cfg), c, k), AtLeastZero(cfg.maxRateLimitRetries);
      && k + t.attempts == (if write then rate + 2 else Retries(cfg) + rate + 1)
      && t.counters == Counters(true, rate, if write then 0 else Retries(cfg) - 1)
      && t.sleptMs == SleepBound(c, t.counters, cfg.maxRetryAfterMs)
    decreases Budget(cfg, c)
  {
    var v, t := Decide(cfg, write, c, WorstServer(cfg)(k)), RunFrom(cfg, write, WorstServer(cfg), c, k);
    WorstStep(cfg, write, c, k);
    BoundAfterRateLimit(c, t.counters, cfg.maxRetryAfterMs);
    BoundAfterBackoff(c, t.counters, cfg.maxRetryAfterMs);
    if v.Again? {
      BudgetShrinks(cfg, write, c, WorstServer(cfg)(k));
      WorstRun(cfg, write, v.counters, k + 1);
      hide SleepBound, Decide, WorstServer, Pow2, BackoffMs;
    }
  }

  /** Both bounds are exact. */
  lemma RequestBoundsAttained(cfg: Config, write: bool)
    requires cfg.maxRetryAfterMs >= 0.0
    ensures var t, rate := Run(cfg, write, WorstServer(cfg)), AtLeastZero(cfg.maxRateLimitRetries);
      && t.attempts == (if write then rate + 2 else Retries(cfg) + rate + 1)
      && t.sleptMs == Times(rate, cfg.maxRetryAfterMs)
                      + (if write then 0.0 else (100 * (Pow2(Retries(cfg)) - 2)) as real)
  {
    WorstRun(cfg, write, Counters(true, 0, 0), 1);
    assert Pow2(1) == 2;
  }
}
