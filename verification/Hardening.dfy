/** The composition of the resilience classes (hardeningOrchestrator.ts). The timeout wrapper is part of how one call
    of the protected function ends. */
module Hardening {
  import StableSort
  import Limits = RateLimiting
  import Breakers = CircuitBreaking
  import Retries = Retrying
  import Chains = FallbackChaining

  datatype Stack = Stack(bucket: Limits.Bucket, breaker: Breakers.Breaker, retry: Retries.Retry,
                         chain: Chains.Chain)

  /** One request: the clock, how each call of the function ends, how each fallback provider ends. */
  datatype Call = Call(now: real, tries: Retries.Tries, works: Chains.Works)

  datatype Reply = RateLimited | Primary | PrimaryFailed | Fallback(name: string) | AllFailed

  predicate Admitted(s: Stack, c: Call) {
    Limits.Grants(s.bucket, Limits.TryConsume(c.now))
  }

  /** Whether the protected function is reached. */
  predicate Reached(s: Stack, c: Call) {
    Admitted(s, c) && s.breaker.state != Breakers.Open
  }

  predicate PrimaryWorks(s: Stack, c: Call) {
    Reached(s, c) && Retries.EndsWell(s.retry.maxAttempts, c.tries)
  }

  function AfterLimit(s: Stack, c: Call): Stack {
    s.(bucket := Limits.Step(s.bucket, Limits.TryConsume(c.now)))
  }

  function AfterPrimary(s: Stack, c: Call): Stack {
    if !Reached(s, c) then AfterLimit(s, c)
    else AfterLimit(s, c).(retry := Retries.Retried(s.retry, c.tries),
                           breaker := Breakers.Called(s.breaker, PrimaryWorks(s, c)))
  }

  function Executed(s: Stack, c: Call): (Stack, Reply)
    requires Chains.Known(s.chain)
  {
    var t := AfterPrimary(s, c);
    if !Admitted(s, c) then (t, RateLimited)
    else if PrimaryWorks(s, c) then (t, Primary)
    else if s.chain.providers == [] then (t, PrimaryFailed)
    else
      var (chain, reply) := Chains.Executed(s.chain, c.works);
      (t.(chain := chain), if reply.Answered? then Fallback(reply.winner.name) else AllFailed)
  }

  // ----- a request among others ------------------------------------------

  /** What other requests do to the four objects while this one awaits the function, and later the fallbacks. */
  datatype Others = Others(limits: seq<Limits.Event>, breaker: seq<Breakers.Event>, retry: seq<Retries.Tally>,
                           chain: seq<Chains.Event>, laterLimits: seq<Limits.Event>, laterBreaker: seq<Breakers.Event>,
                           laterRetry: Retries.Tally, laterChain: Chains.Others)

  /** The four objects, with the calls of other requests that are in flight. */
  datatype Shared = Shared(bucket: Limits.Bucket, breakers: Breakers.System, retry: Retries.Retry,
                           chains: Chains.System)

  function StackOf(w: Shared): Stack {
    Stack(w.bucket, w.breakers.breaker, w.retry, w.chains.chain)
  }

  function Entering(w: Shared, c: Call): Shared {
    w.(bucket := Limits.Step(w.bucket, Limits.TryConsume(c.now)))
  }

  /** The breaker with this request in flight too. */
  function Joined(w: Shared): Breakers.System {
    Breakers.System(w.breakers.breaker, w.breakers.inFlight + 1)
  }

  ghost predicate PrimaryPossible(w: Shared, o: Others) {
    && Breakers.Legal(Joined(w), o.breaker) && Breakers.After(Joined(w), o.breaker).inFlight > 0
    && Chains.Tracked(w.chains) && Chains.Legal(w.chains, o.chain)
  }

  /** The calls of the function have ended and the breaker has recorded how. */
  ghost function PrimaryDone(w: Shared, c: Call, o: Others): (v: Shared)
    requires PrimaryPossible(w, o)
    ensures Chains.Tracked(v.chains)
  {
    var ok, n := Retries.EndsWell(w.retry.maxAttempts, c.tries), Retries.Calls(w.retry.maxAttempts, c.tries, 0);
    Shared(Limits.Run(w.bucket, o.limits),
           Breakers.Next(Breakers.After(Joined(w), o.breaker), if ok then Breakers.Succeed else Breakers.Fail),
           Retries.Plus(Retries.Retried(w.retry, c.tries), Retries.TallyOf(o.retry, n)),
           Chains.After(w.chains, o.chain))
  }

  ghost function ChainTrace(w: Shared, c: Call, o: Others): seq<Chains.Event>
    requires Chains.Tracked(w.chains)
  {
    Chains.Trace(Chains.AllOpen(w.chains.chain), Chains.ToTry(w.chains.chain), c.works, o.laterChain, 0)
  }

  ghost predicate FallbackPossible(w: Shared, c: Call, o: Others)
    requires Chains.Tracked(w.chains)
  {
    Breakers.Legal(w.breakers, o.laterBreaker) && Chains.Legal(w.chains, ChainTrace(w, c, o))
  }

  ghost function FallbackDone(w: Shared, c: Call, o: Others): Shared
    requires Chains.Tracked(w.chains) && FallbackPossible(w, c, o)
  {
    Shared(Limits.Run(w.bucket, o.laterLimits), Breakers.After(w.breakers, o.laterBreaker),
           Retries.Plus(w.retry, o.laterRetry), Chains.After(w.chains, ChainTrace(w, c, o)))
  }

  /** The state when the fallbacks may be asked. */
  ghost function AfterFunction(w: Shared, c: Call, o: Others): (v: Shared)
    requires Chains.Tracked(w.chains) && (Reached(StackOf(w), c) ==> PrimaryPossible(Entering(w, c), o))
    ensures Chains.Tracked(v.chains)
  {
    if Reached(StackOf(w), c) then PrimaryDone(Entering(w, c), c, o) else Entering(w, c)
  }

  predicate AsksFallbacks(w: Shared, c: Call, providers: seq<Chains.Provider>) {
    Admitted(StackOf(w), c) && !PrimaryWorks(StackOf(w), c) && providers != []
  }

  /** What the others do can happen. */
  ghost predicate Possible(w: Shared, c: Call, o: Others) {
    && Chains.Tracked(w.chains) && (Reached(StackOf(w), c) ==> PrimaryPossible(Entering(w, c), o))
    && var v := AfterFunction(w, c, o); AsksFallbacks(w, c, v.chains.chain.providers) ==> FallbackPossible(v, c, o)
  }

  /** One request among others: it is admitted, refused or let through by the state it finds, and each object ends as
      the others' steps and its own leave it. */
  ghost function Done(w: Shared, c: Call, o: Others): (Shared, Reply)
    requires Possible(w, c, o)
  {
    var v := AfterFunction(w, c, o);
    if !Admitted(StackOf(w), c) then (v, RateLimited)
    else if PrimaryWorks(StackOf(w), c) then (v, Primary)
    else if v.chains.chain.providers == [] then (v, PrimaryFailed)
    else
      var reply := Chains.Answer(v.chains.chain, c.works, o.laterChain);
      (FallbackDone(v, c, o), if reply.Answered? then Fallback(reply.winner.name) else AllFailed)
  }

  class HardeningOrchestrator {
    const circuitBreaker: Breakers.CircuitBreaker
    const rateLimiter: Limits.RateLimiter
    const retryHandler: Retries.RetryHandler
    const fallbackChain: Chains.FallbackChain

    function Value(): Stack
      reads circuitBreaker, rateLimiter, retryHandler, fallbackChain
    {
      Stack(rateLimiter.State(), circuitBreaker.Value(), retryHandler.Value(), fallbackChain.Value())
    }

    constructor (failureThreshold: int, requestsPerSecond: real, maxRetries: int, now: real)
      ensures fresh(circuitBreaker) && fresh(rateLimiter) && fresh(retryHandler) && fresh(fallbackChain)
      ensures Value()
        == Stack(Limits.Bucket(requestsPerSecond * 2.0, requestsPerSecond / 1000.0, requestsPerSecond * 2.0, now, 0, 0),
                               Breakers.FreshBreaker(failureThreshold, 0.5),
                               Retries.Retry(maxRetries, 100.0, 2.0, 5000.0, 0, 0, 0, 0),
                               Chains.EmptyChain(3))
    {
      circuitBreaker := new Breakers.CircuitBreaker(failureThreshold, 0.5);
      rateLimiter := new Limits.RateLimiter(requestsPerSecond, requestsPerSecond * 2.0, now);
      retryHandler := new Retries.RetryHandler(maxRetries, 100.0, 2.0, 5000.0);
      fallbackChain := new Chains.FallbackChain(3);
    }

    method AddFallbackProvider(name: string, priority: real)
      modifies fallbackChain
      ensures Value() == old(Value()).(chain := Chains.Added(old(Value()).chain, Chains.Provider(name, priority)))
    {
      fallbackChain.AddProvider(Chains.Provider(name, priority));
    }

    method Execute(c: Call, o: Others, ghost w: Shared) returns (reply: Reply)
      requires Value() == StackOf(w) && Possible(w, c, o)
      modifies circuitBreaker, rateLimiter, retryHandler, fallbackChain
      ensures Value() == StackOf(Done(w, c, o).0) && reply == Done(w, c, o).1
    {
      hide Limits.Flow, Limits.Refilled, Limits.Run, Breakers.Trips, Breakers.Failed, Breakers.Succeeded,
           Breakers.Legal,
           Breakers.After, Retries.Calls, Chains.ToTry, Chains.Trace, Chains.Answer, Chains.After, Chains.Legal;
      var admitted := rateLimiter.TryConsume(c.now);
      if !admitted {
        return RateLimited;
      }
      if circuitBreaker.state != Breakers.Open {
        var ok, _, _ := retryHandler.Execute(c.tries, o.retry);
        rateLimiter.RunOthers(o.limits);
        fallbackChain.RunOthers(o.chain, w.chains.inFlight);
        var _ := circuitBreaker.Execute(ok, o.breaker, w.breakers.inFlight);
        if ok {
          return Primary;
        }
      }
      ghost var v := AfterFunction(w, c, o);
      assert Value() == StackOf(v);
      if !fallbackChain.HasProviders() {
        return PrimaryFailed;
      }
      rateLimiter.RunOthers(o.laterLimits);
      circuitBreaker.RunOthers(o.laterBreaker, v.breakers.inFlight);
      retryHandler.RunOthers(o.laterRetry);
      var answer := fallbackChain.Execute(c.works, o.laterChain, v.chains.inFlight);
      reply := if answer.Answered? then Fallback(answer.winner.name) else AllFailed;
    }
  }

  const NOBODY := Others([], [], [], [], [], [], Retries.Tally(0, 0, 0, 0), [])

  /** Undisturbed, that is the sequential request. */
  lemma {:induction false} UndisturbedRequest(w: Shared, c: Call)
    requires Chains.Tracked(w.chains)
    ensures Possible(w, c, NOBODY)
    ensures StackOf(Done(w, c, NOBODY).0) == Executed(StackOf(w), c).0
      && Done(w, c, NOBODY).1 == Executed(StackOf(w), c).1
  {
    var v := if Reached(StackOf(w), c) then PrimaryDone(Entering(w, c), c, NOBODY) else Entering(w, c);
    PrimaryAlone(Entering(w, c), c);
    FallbackAlone(v, c);
    FallbackAlone(Entering(w, c), c);
    hide Limits.Step, Limits.Grants, Breakers.Called, Retries.Retried, Retries.EndsWell, Chains.ToTry, Chains.Trace,
         Chains.Answer, Chains.Executed, Chains.TryEach, PrimaryPossible, PrimaryDone, FallbackPossible, FallbackDone;
    assert AfterFunction(w, c, NOBODY) == v;
    assert StackOf(v) == AfterPrimary(StackOf(w), c);
  }

  lemma {:induction false} PrimaryAlone(w: Shared, c: Call)
    requires Chains.Tracked(w.chains)
    ensures PrimaryPossible(w, NOBODY)
    ensures var v, ok := PrimaryDone(w, c, NOBODY), Retries.EndsWell(w.retry.maxAttempts, c.tries);
      && v.bucket == w.bucket && v.chains == w.chains && v.retry == Retries.Retried(w.retry, c.tries)
      && (w.breakers.breaker.state != Breakers.Open ==> v.breakers.breaker == Breakers.Called(w.breakers.breaker, ok))
  {
    NoTally(Retries.Calls(w.retry.maxAttempts, c.tries, 0));
    Chains.AfterNone(w.chains);
    hide Breakers.Trips, Retries.Calls, Retries.TallyOf, Chains.Tracked;
  }

  lemma {:induction false} FallbackAlone(w: Shared, c: Call)
    requires Chains.Tracked(w.chains)
    ensures FallbackPossible(w, c, NOBODY)
    ensures var v, s := FallbackDone(w, c, NOBODY), Chains.Executed(w.chains.chain, c.works);
      && v.bucket == w.bucket && v.breakers == w.breakers && v.retry == w.retry && v.chains.chain == s.0
      && Chains.Answer(w.chains.chain, c.works, []) == s.1
  {
    Chains.UndisturbedCall(w.chains, c.works);
    hide Chains.ToTry, Chains.Trace, Chains.TryEach, Chains.AllOpen, Chains.Answer, Chains.Executed, Chains.Tracked;
  }

  lemma {:induction false} NoTally(n: nat)
    ensures Retries.TallyOf(NOBODY.retry, n) == Retries.Tally(0, 0, 0, 0)
  {
    if n > 0 {
      NoTally(n - 1);
    }
  }

  // ----- what one request costs ------------------------------------------

  ghost predicate WellFormed(s: Stack) {
    Chains.Known(s.chain) && Chains.Ordered(s.chain)
  }

  /** A request takes one token or is rejected, charges the breaker once exactly when it is admitted and finds it not
      OPEN, and only then calls the function, at most maxRetries times. */
  lemma {:induction false} RequestCosts(s: Stack, c: Call)
    requires WellFormed(s)
    ensures var (t, reply) := Executed(s, c);
      && t.bucket.allowed == s.bucket.allowed + (if Admitted(s, c) then 1 else 0)
      && t.bucket.rejected == s.bucket.rejected + (if Admitted(s, c) then 0 else 1)
      && (reply == RateLimited <==> !Admitted(s, c))
      && t.breaker.total == s.breaker.total + (if Reached(s, c) then 1 else 0)
      && t.retry.attempts - s.retry.attempts
         <= (if Reached(s, c) && s.retry.maxAttempts > 0 then s.retry.maxAttempts else 0)
      && (reply == Primary <==> PrimaryWorks(s, c))
  {
    Retries.RetriedBalances(s.retry, c.tries);
    hide Limits.Flow, Breakers.Trips, Chains.Executed, Retries.Calls, Chains.Ordered;
  }

  /** A request that the function answered leaves the providers alone; otherwise each is asked at most once, and the
      one named in the reply is the first by priority that works. */
  lemma {:induction false} FallbacksAskedOnce(s: Stack, c: Call, p: Chains.Provider)
    requires WellFormed(s) && p in s.chain.providers
    ensures p.name in Executed(s, c).0.chain.attempts
    ensures var (t, reply) := Executed(s, c);
      && (!Admitted(s, c) || PrimaryWorks(s, c) ==> t.chain == s.chain)
      && s.chain.attempts[p.name] <= t.chain.attempts[p.name] <= s.chain.attempts[p.name] + 1
      && (reply.Fallback? ==> exists w :: IsWinner(s.chain, c.works, p, w) && w.name == reply.name)
  {
    if Admitted(s, c) && !PrimaryWorks(s, c) {
      assert s.chain.providers != [];
      ExecuteAsksOnce(s.chain, c.works, p);
    }
    hide Limits.Flow, Breakers.Called, Chains.Executed, Retries.Calls, Chains.Ordered;
  }

  /** `w` is a provider that works, and `p` is no better choice. */
  ghost predicate IsWinner(chain: Chains.Chain, works: Chains.Works, p: Chains.Provider,
                           w: Chains.Provider)
    requires Chains.Known(chain)
  {
    && w in chain.providers && works(w)
    && (Chains.Candidate(chain, p) && works(p) ==> w.priority <= p.priority)
  }

  lemma {:induction false} ExecuteAsksOnce(chain: Chains.Chain, works: Chains.Works, p: Chains.Provider)
    requires Chains.Known(chain) && Chains.Ordered(chain) && p in chain.providers
    ensures p.name in chain.attempts && p.name in Chains.Executed(chain, works).0.attempts
    ensures var (d, reply) := Chains.Executed(chain, works);
      && chain.attempts[p.name] <= d.attempts[p.name] <= chain.attempts[p.name] + 1
      && (reply.Answered? ==> IsWinner(chain, works, p, reply.winner))
  {
    WinnerIsBest(chain, works, p);
    AskedOnce(chain, works, p.name);
    assert p.name in chain.health;
    hide Chains.Executed, Chains.Ordered, IsWinner;
  }

  lemma {:induction false} AskedOnce(chain: Chains.Chain, works: Chains.Works, name: string)
    requires Chains.Known(chain) && Chains.Ordered(chain) && chain.providers != [] && name in chain.health
    ensures var d := Chains.Executed(chain, works).0;
      && name in chain.attempts && name in d.attempts
      && chain.attempts[name] <= d.attempts[name] <= chain.attempts[name] + 1
  {
    hide *;
    OrderedMeans(chain);
    Chains.ExecuteMeans(chain, works);
    var ps, d := Chains.ToTry(chain), Chains.Executed(chain, works).0;
    var k := Chains.FirstWorking(ps, works);
    if name in Chains.Names(ps) {
      var i := PositionOf(ps, name);
      TouchedOnce(chain, d, name, i < k, i == k);
    } else {
      TouchedOnce(chain, d, name, false, false);
    }
  }

  lemma OrderedMeans(chain: Chains.Chain)
    requires Chains.Ordered(chain)
    ensures Chains.DistinctNames(chain.providers) && StableSort.Sorted(chain.providers, Chains.PRIORITY)
  {
  }

  lemma PositionOf(ps: seq<Chains.Provider>, name: string) returns (i: nat)
    requires name in Chains.Names(ps)
    ensures i < |ps| && ps[i].name == name
  {
    i :| i < |ps| && ps[i].name == name;
  }

  lemma {:induction false} WinnerIsBest(chain: Chains.Chain, works: Chains.Works, p: Chains.Provider)
    requires Chains.Known(chain) && Chains.Ordered(chain) && p in chain.providers
    ensures var reply := Chains.Executed(chain, works).1;
      reply.Answered? ==> IsWinner(chain, works, p, reply.winner)
  {
    Chains.ExecuteMeans(chain, works);
    var ps := Chains.ToTry(chain);
    var k := Chains.FirstWorking(ps, works);
    hide Chains.Executed, Chains.ToTry, Chains.Ordered, Chains.Candidate,
         Chains.Touched;
    if k < |ps| {
      assert ps[k] in ps;
      CandidateIsProvider(chain, ps[k]);
    }
  }

  lemma TouchedOnce(c: Chains.Chain, d: Chains.Chain, name: string, failed: bool, succeeded: bool)
    requires Chains.Known(c) && Chains.Known(d) && name in c.health && name in d.health
    requires Chains.Touched(c, d, name, failed, succeeded)
    ensures name in c.attempts && name in d.attempts && c.attempts[name] <= d.attempts[name] <= c.attempts[name] + 1
  {
  }

  lemma CandidateIsProvider(chain: Chains.Chain, p: Chains.Provider)
    requires Chains.Known(chain) && Chains.Candidate(chain, p)
    ensures p in chain.providers
  {
  }

  // ----- sequential runs -------------------------------------------------

  datatype Event = Request(call: Call) | BreakerTimer | ProviderTimer(name: string)
                 | AddFallback(provider: Chains.Provider) | ReadMetrics(now: real)

  /** `refused` counts the admitted requests that found the breaker OPEN. */
  datatype History = History(stack: Stack, refused: nat)

  ghost predicate Enabled(h: History, e: Event) {
    match e
    case Request(_) => true
    case BreakerTimer => h.stack.breaker.timer
    case ProviderTimer(n) => n in h.stack.chain.health && h.stack.chain.health[n].timer
    case AddFallback(p) => p.name !in h.stack.chain.health
    case ReadMetrics(_) => true
  }

  /** Requests, timers and registrations keep the providers in order. */
  lemma {:induction false} ExecutedWellFormed(s: Stack, c: Call)
    requires WellFormed(s)
    ensures WellFormed(Executed(s, c).0)
  {
    if Admitted(s, c) && !PrimaryWorks(s, c) && s.chain.providers != [] {
      var d := Chains.Executed(s.chain, c.works).0;
      Chains.TryEachReply(s.chain, Chains.ToTry(s.chain), c.works);
      assert d.providers == s.chain.providers && d.health.Keys == s.chain.health.Keys;
    }
    hide Limits.Step, Breakers.Called, Retries.Retried, Chains.TryEach, Chains.ToTry,
         Chains.DistinctNames;
  }

  ghost function Next(h: History, e: Event): History
    requires WellFormed(h.stack) && Enabled(h, e)
  {
    var s := h.stack;
    match e
    case Request(c) => History(Executed(s, c).0, h.refused + (if Admitted(s, c) && !Reached(s, c) then 1 else 0))
    case BreakerTimer => h.(stack := s.(breaker := Breakers.Fired(s.breaker)))
    case ProviderTimer(n) => h.(stack := s.(chain := Chains.Fired(s.chain, n)))
    case AddFallback(p) => h.(stack := s.(chain := Chains.Added(s.chain, p)))
    case ReadMetrics(now) => h.(stack := s.(bucket := Limits.Step(s.bucket, Limits.ReadMetrics(now))))
  }

  lemma {:induction false} NextWellFormed(h: History, e: Event)
    requires WellFormed(h.stack) && Enabled(h, e)
    ensures WellFormed(Next(h, e).stack)
  {
    if e.Request? {
      ExecutedWellFormed(h.stack, e.call);
    } else if e.AddFallback? {
      Chains.AddKeepsOrdered(h.stack.chain, e.provider);
    }
    hide Executed, Chains.Added, Chains.DistinctNames, Limits.Step;
  }

  /** Every admitted request is charged to the breaker or was refused by it; every attempt of the retry handler ends as
      a success, a retry or a failure; and breaker and retry handler agree on how the requests ended. */
  ghost predicate Accounts(h: History) {
    var s := h.stack;
    && s.bucket.allowed == s.breaker.total + h.refused
    && s.retry.attempts == s.retry.successes + s.retry.retries + s.retry.failures
    && s.retry.successes == s.breaker.successes
    && (s.retry.maxAttempts > 0 ==> s.retry.failures == s.breaker.failures)
    && Breakers.Consistent(s.breaker)
    && (s.breaker.state != Breakers.Closed ==> Breakers.Trips(s.breaker))
  }

  ghost predicate Legal(h: History, es: seq<Event>)
    requires WellFormed(h.stack)
    decreases |es|
  {
    es == [] || (Enabled(h, es[0]) && (NextWellFormed(h, es[0]); Legal(Next(h, es[0]), es[1..])))
  }

  ghost function After(h: History, es: seq<Event>): (t: History)
    requires WellFormed(h.stack) && Legal(h, es)
    ensures WellFormed(t.stack)
    decreases |es|
  {
    if es == [] then h
    else
      NextWellFormed(h, es[0]);
      After(Next(h, es[0]), es[1..])
  }

  lemma ExecutedAccounts(s: Stack, c: Call)
    requires WellFormed(s)
    ensures var t := Executed(s, c).0;
      && t.bucket.allowed == s.bucket.allowed + (if Admitted(s, c) then 1 else 0)
      && t.breaker == (if Reached(s, c) then Breakers.Called(s.breaker, PrimaryWorks(s, c)) else s.breaker)
      && t.retry == (if Reached(s, c) then Retries.Retried(s.retry, c.tries) else s.retry)
  {
    hide Limits.Flow, Breakers.Called, Chains.Executed, Retries.Calls, Chains.Ordered;
  }

  lemma CallAccounts(b: Breakers.Breaker, r: Retries.Retry, tries: Retries.Tries)
    requires b.state != Breakers.Open && Breakers.Consistent(b)
    requires b.state != Breakers.Closed ==> Breakers.Trips(b)
    ensures var ok := Retries.EndsWell(r.maxAttempts, tries);
      var d, q := Breakers.Called(b, ok), Retries.Retried(r, tries);
      && Breakers.Consistent(d) && (d.state != Breakers.Closed ==> Breakers.Trips(d))
      && d.total == b.total + 1 && q.maxAttempts == r.maxAttempts
      && d.successes - b.successes == q.successes - r.successes == (if ok then 1 else 0)
      && (r.maxAttempts > 0 ==> d.failures - b.failures == q.failures - r.failures)
      && (Retries.Balanced(r) ==> Retries.Balanced(q))
  {
    Retries.RetriedBalances(r, tries);
    if Breakers.Trips(b) {
      Breakers.FailureKeepsTripped(b);
    }
    hide Retries.Calls;
  }

  lemma {:induction false} NextKeepsAccounts(h: History, e: Event)
    requires WellFormed(h.stack) && Enabled(h, e) && Accounts(h)
    ensures Accounts(Next(h, e))
  {
    var s := h.stack;
    if e.Request? {
      ExecutedAccounts(s, e.call);
      if Reached(s, e.call) {
        CallAccounts(s.breaker, s.retry, e.call.tries);
      }
      assert Admitted(s, e.call) && !Reached(s, e.call) ==> s.breaker.state == Breakers.Open;
      hide Executed, Breakers.Called, Retries.Retried, Breakers.Trips;
    } else {
      hide Chains.Known, Chains.Ordered, Limits.Flow, Chains.Added;
    }
  }

  /** In every sequential run (with timers firing in between) the accounts balance. */
  lemma {:induction false} RunKeepsAccounts(h: History, es: seq<Event>)
    requires WellFormed(h.stack) && Accounts(h) && Legal(h, es)
    ensures Accounts(After(h, es))
    decreases |es|
  {
    if es != [] {
      NextKeepsAccounts(h, es[0]);
      NextWellFormed(h, es[0]);
      hide Accounts, WellFormed, Next, Enabled;
      RunKeepsAccounts(Next(h, es[0]), es[1..]);
    }
  }
}
