/** Any number of requests of hardeningOrchestrator.ts at once. What a request does between two awaits is one step. */
module HardeningInterleaved {
  import Limits = RateLimiting
  import Breakers = CircuitBreaking
  import Retries = Retrying
  import Chains = FallbackChaining
  import Sequential = Hardening

  /** The requests that were let through to the retry handler: those in a call of the protected function and those
      asleep before their next one, by the number of calls that have failed, and those whose last call has ended but
      which the breaker has not yet recorded, by how they ended. `refused` counts those that found the breaker OPEN. */
  datatype World = World(bucket: Limits.Bucket, breaker: Breakers.Breaker, retry: Retries.Retry, chains: Chains.System,
                         calling: multiset<nat>, sleeping: multiset<nat>, ended: multiset<bool>, refused: nat)

  datatype Event = Admit(now: real) | CallEnds(failed: nat, works: bool) | Wake(failed: nat) | Complete(works: bool)
                 | BreakerTimer | ReadMetrics(now: real) | ChainStep(step: Chains.Event)

  function Put<T>(m: multiset<T>, x: T): multiset<T> {
    m[x := m[x] + 1]
  }

  function Take<T>(m: multiset<T>, x: T): multiset<T>
    requires x in m
  {
    m[x := m[x] - 1]
  }

  ghost predicate Enabled(w: World, e: Event) {
    && Chains.Tracked(w.chains)
    && match e
       case Admit(_) => true
       case CallEnds(k, _) => k in w.calling
       case Wake(k) => k in w.sleeping
       case Complete(works) => works in w.ended
       case BreakerTimer => w.breaker.timer
       case ReadMetrics(_) => true
       case ChainStep(c) => Chains.Enabled(w.chains, c)
  }

  /** The limiter and the breaker are asked without an await in between, and the first call starts at once. */
  function Admitted(w: World, now: real): World {
    var v := w.(bucket := Limits.Step(w.bucket, Limits.TryConsume(now)));
    if !Limits.Grants(w.bucket, Limits.TryConsume(now)) then v
    else if w.breaker.state == Breakers.Open then v.(refused := w.refused + 1)
    else if w.retry.maxAttempts <= 0 then v.(ended := Put(w.ended, false))
    else v.(calling := Put(w.calling, 0), retry := w.retry.(attempts := w.retry.attempts + 1))
  }

  function CallEnded(w: World, failed: nat, works: bool): World
    requires failed in w.calling
  {
    var v := w.(calling := Take(w.calling, failed));
    if works then v.(ended := Put(w.ended, true), retry := w.retry.(successes := w.retry.successes + 1))
    else if failed + 1 < w.retry.maxAttempts then
      v.(sleeping := Put(w.sleeping, failed + 1), retry := w.retry.(retries := w.retry.retries + 1))
    else v.(ended := Put(w.ended, false), retry := w.retry.(failures := w.retry.failures + 1))
  }

  ghost function Next(w: World, e: Event): World
    requires Enabled(w, e)
  {
    match e
    case Admit(now) => Admitted(w, now)
    case CallEnds(k, works) => CallEnded(w, k, works)
    case Wake(k) => w.(sleeping := Take(w.sleeping, k), calling := Put(w.calling, k),
                       retry := w.retry.(attempts := w.retry.attempts + 1))
    case Complete(works) => w.(ended := Take(w.ended, works),
                               breaker := if works then Breakers.Succeeded(w.breaker) else Breakers.Failed(w.breaker))
    case BreakerTimer => w.(breaker := Breakers.Fired(w.breaker))
    case ReadMetrics(now) => w.(bucket := Limits.Step(w.bucket, Limits.ReadMetrics(now)))
    case ChainStep(c) => w.(chains := Chains.Next(w.chains, c))
  }

  ghost predicate Legal(w: World, es: seq<Event>)
    decreases |es|
  {
    es == [] || (Enabled(w, es[0]) && Legal(Next(w, es[0]), es[1..]))
  }

  ghost function After(w: World, es: seq<Event>): World
    requires Legal(w, es)
    decreases |es|
  {
    if es == [] then w else After(Next(w, es[0]), es[1..])
  }

  /** Every granted request was refused by the breaker, recorded by it or is under way; every call of the function ended
      as a success, a retry or a failure or is running; and the breaker is behind the retry handler by exactly the
      requests that have ended and are not recorded. */
  ghost predicate Balanced(w: World) {
    && w.bucket.allowed == w.refused + w.breaker.total + |w.calling| + |w.sleeping| + |w.ended|
    && w.retry.attempts == w.retry.successes + w.retry.retries + w.retry.failures + |w.calling|
    && w.retry.successes == w.breaker.successes + w.ended[true]
    && (w.retry.maxAttempts > 0 ==> w.retry.failures == w.breaker.failures + w.ended[false])
  }

  /** No request makes more than maxAttempts calls. */
  ghost predicate Bounded(w: World) {
    && (forall k <- w.calling :: k < w.retry.maxAttempts)
    && (forall k <- w.sleeping :: k < w.retry.maxAttempts)
  }

  ghost predicate Accounts(w: World) {
    && Balanced(w) && Bounded(w)
    && Breakers.Consistent(w.breaker) && Chains.Inv(w.chains) && w.chains.chain.threshold >= 1
  }

  lemma TokensCounted(b: Limits.Bucket, e: Limits.Event)
    ensures Limits.Step(b, e).allowed == b.allowed + (if Limits.Grants(b, e) then 1 else 0)
    ensures e.ReadMetrics? ==> !Limits.Grants(b, e)
  {
    hide Limits.Flow;
  }

  lemma StepKeepsBalance(w: World, e: Event)
    requires Balanced(w) && Enabled(w, e)
    ensures Balanced(Next(w, e)) && Next(w, e).retry.maxAttempts == w.retry.maxAttempts
  {
    hide Chains.Next, Chains.Enabled, Chains.Tracked, Limits.Step, Limits.Grants, Breakers.Trips;
    match e
    case Admit(now) => TokensCounted(w.bucket, Limits.TryConsume(now));
    case ReadMetrics(now) => TokensCounted(w.bucket, Limits.ReadMetrics(now));
    case _ =>
  }

  lemma StepKeepsBounds(w: World, e: Event)
    requires Bounded(w) && Enabled(w, e)
    ensures Bounded(Next(w, e))
  {
    hide Chains.Next, Chains.Enabled, Chains.Tracked, Limits.Step, Limits.Grants, Breakers.Succeeded, Breakers.Failed,
         Breakers.Fired;
  }

  lemma StepKeepsParts(w: World, e: Event)
    requires Breakers.Consistent(w.breaker) && Chains.Inv(w.chains) && w.chains.chain.threshold >= 1 && Enabled(w, e)
    ensures var v := Next(w, e);
      Breakers.Consistent(v.breaker) && Chains.Inv(v.chains) && v.chains.chain.threshold >= 1
  {
    if e.ChainStep? {
      Chains.StepKeepsInv(w.chains, e.step);
    }
    hide Chains.Inv, Chains.Next, Chains.Enabled, Chains.Tracked, Limits.Step, Limits.Grants, Breakers.Trips, Put, Take;
  }

  lemma StepKeepsAccounts(w: World, e: Event)
    requires Accounts(w) && Enabled(w, e)
    ensures Accounts(Next(w, e)) && Next(w, e).retry.maxAttempts == w.retry.maxAttempts
  {
    hide Balanced, Bounded, Next, Enabled, Breakers.Consistent, Chains.Inv;
    StepKeepsBalance(w, e);
    StepKeepsBounds(w, e);
    StepKeepsParts(w, e);
  }

  /** The accounts balance in every interleaving of any number of requests, timers, and steps of the fallback chain. */
  lemma {:induction false} InterleavingKeepsAccounts(w: World, es: seq<Event>)
    requires Accounts(w) && Legal(w, es)
    ensures Accounts(After(w, es)) && After(w, es).retry.maxAttempts == w.retry.maxAttempts
    decreases |es|
  {
    if es != [] {
      StepKeepsAccounts(w, es[0]);
      hide Accounts, Next, Enabled;
      InterleavingKeepsAccounts(Next(w, es[0]), es[1..]);
    }
  }

  /** So from a fresh orchestrator on; and once no request is under way, breaker and retry handler agree. */
  lemma {:induction false} ReachableAccounts(bucket: Limits.Bucket, failureThreshold: int, rateThreshold: real,
                                             retry: Retries.Retry, threshold: int, es: seq<Event>)
    requires bucket.allowed == 0 && retry.attempts == retry.successes == retry.retries == retry.failures == 0
    requires threshold >= 1 && Legal(Fresh(bucket, failureThreshold, rateThreshold, retry, threshold), es)
    ensures var w := After(Fresh(bucket, failureThreshold, rateThreshold, retry, threshold), es);
      && Accounts(w)
      && (|w.calling| + |w.sleeping| + |w.ended| == 0 && retry.maxAttempts > 0 ==>
            && w.bucket.allowed == w.refused + w.breaker.total
            && w.breaker.successes == w.retry.successes && w.breaker.failures == w.retry.failures
            && w.retry.attempts == w.breaker.total + w.retry.retries)
  {
    var w := Fresh(bucket, failureThreshold, rateThreshold, retry, threshold);
    Chains.ReachableInv(threshold, []);
    assert Chains.Inv(w.chains);
    InterleavingKeepsAccounts(w, es);
  }

  function Fresh(bucket: Limits.Bucket, failureThreshold: int, rateThreshold: real, retry: Retries.Retry,
                 threshold: int): World
  {
    World(bucket, Breakers.FreshBreaker(failureThreshold, rateThreshold), retry,
          Chains.System(Chains.EmptyChain(threshold), map[]), multiset{}, multiset{}, multiset{}, 0)
  }

  // ----- one request on its own ------------------------------------------------

  /** The steps of the calls of the function from the i-th on. */
  function CallSteps(maxAttempts: int, tries: Retries.Tries, i: nat): seq<Event>
    decreases maxAttempts - i
  {
    if tries(i) || i + 1 >= maxAttempts then [CallEnds(i, tries(i))]
    else [CallEnds(i, false), Wake(i + 1)] + CallSteps(maxAttempts, tries, i + 1)
  }

  /** The retry counters after `n` further calls of which the last one works or not. */
  function Counted(r: Retries.Retry, n: nat, ok: bool): Retries.Retry
    requires n > 0
  {
    r.(attempts := r.attempts + (n - 1), retries := r.retries + (n - 1),
       successes := r.successes + (if ok then 1 else 0), failures := r.failures + (if ok then 0 else 1))
  }

  lemma PutTaken<T>(m: multiset<T>, x: T)
    ensures x in Put(m, x) && Take(Put(m, x), x) == m
  {
  }

  /** After a failed call and the sleep the next one is under way. */
  function Retrying(w: World, i: nat): World
    requires i in w.calling
  {
    w.(calling := Put(Take(w.calling, i), i + 1),
       retry := w.retry.(attempts := w.retry.attempts + 1, retries := w.retry.retries + 1))
  }

  lemma FailAndWake(w: World, i: nat, rest: seq<Event>)
    requires Chains.Tracked(w.chains) && i in w.calling && i + 1 < w.retry.maxAttempts && Legal(Retrying(w, i), rest)
    ensures var es := [CallEnds(i, false), Wake(i + 1)] + rest;
      Legal(w, es) && After(w, es) == After(Retrying(w, i), rest)
  {
    var es, u := [CallEnds(i, false), Wake(i + 1)] + rest, CallEnded(w, i, false);
    PutTaken(w.sleeping, i + 1);
    assert Next(w, es[0]) == u && Enabled(u, Wake(i + 1)) && Next(u, Wake(i + 1)) == Retrying(w, i);
    assert es[1..] == [Wake(i + 1)] + rest && es[1..][1..] == rest;
    hide Put, Take, CallEnded, Chains.Tracked;
    assert Legal(u, es[1..]) && After(u, es[1..]) == After(Retrying(w, i), rest);
  }

  lemma LastCall(w: World, tries: Retries.Tries, i: nat)
    requires Chains.Tracked(w.chains) && i in w.calling && i < w.retry.maxAttempts
    requires tries(i) || i + 1 >= w.retry.maxAttempts
    ensures var es := [CallEnds(i, tries(i))];
      && Legal(w, es)
      && After(w, es) == w.(calling := Take(w.calling, i), ended := Put(w.ended, tries(i)),
                            retry := Counted(w.retry, 1, tries(i)))
  {
    OneEvent(w, CallEnds(i, tries(i)));
    hide Put, Take, Chains.Tracked;
  }

  lemma CallsNext(maxAttempts: int, tries: Retries.Tries, i: nat)
    requires i < maxAttempts
    ensures var n := Retries.Calls(maxAttempts, tries, i);
      if tries(i) || i + 1 >= maxAttempts then n == 1
      else n == 1 + Retries.Calls(maxAttempts, tries, i + 1) && n > 1
  {
  }

  /** The calls of one request, with others under way: all their steps are possible, and in the end only the outcome and
      the counters are left of them. */
  lemma {:induction false} CallsAlone(w: World, tries: Retries.Tries, i: nat)
    requires Chains.Tracked(w.chains) && i in w.calling && i < w.retry.maxAttempts
    ensures var es, n := CallSteps(w.retry.maxAttempts, tries, i), Retries.Calls(w.retry.maxAttempts, tries, i);
      && n > 0 && Legal(w, es)
      && After(w, es) == w.(calling := Take(w.calling, i), ended := Put(w.ended, tries(i + n - 1)),
                            retry := Counted(w.retry, n, tries(i + n - 1)))
    decreases w.retry.maxAttempts - i
  {
    CallsNext(w.retry.maxAttempts, tries, i);
    if tries(i) || i + 1 >= w.retry.maxAttempts {
      LastCall(w, tries, i);
    } else {
      var v := Retrying(w, i);
      PutTaken(Take(w.calling, i), i + 1);
      CallsAlone(v, tries, i + 1);
      FailAndWake(w, i, CallSteps(w.retry.maxAttempts, tries, i + 1));
    }
    hide Put, Take, Legal, After, Chains.Tracked, Retries.Calls;
  }

  lemma OneEvent(w: World, e: Event)
    requires Enabled(w, e)
    ensures Legal(w, [e]) && After(w, [e]) == Next(w, e)
  {
    assert [e][1..] == [];
  }

  function StackOf(w: World): Sequential.Stack {
    Sequential.Stack(w.bucket, w.breaker, w.retry, w.chains.chain)
  }

  /** The steps of a request to the protected function with nothing in between. */
  function RequestSteps(w: World, c: Sequential.Call): seq<Event> {
    [Admit(c.now)]
    + if !Sequential.Reached(StackOf(w), c) then []
      else (if w.retry.maxAttempts > 0 then CallSteps(w.retry.maxAttempts, c.tries, 0) else [])
           + [Complete(Sequential.PrimaryWorks(StackOf(w), c))]
  }

  lemma {:induction false} AfterConcat(w: World, a: seq<Event>, b: seq<Event>)
    requires Legal(w, a) && Legal(After(w, a), b)
    ensures Legal(w, a + b) && After(w, a + b) == After(After(w, a), b)
    decreases |a|
  {
    if a == [] {
      assert a + b == b;
    } else {
      assert (a + b)[1..] == a[1..] + b;
      AfterConcat(Next(w, a[0]), a[1..], b);
      hide Next, Enabled;
    }
  }

  /** The state in which the request only has to report the outcome of its calls. */
  function ToReport(w: World, c: Sequential.Call): World {
    w.(bucket := Limits.Step(w.bucket, Limits.TryConsume(c.now)), retry := Retries.Retried(w.retry, c.tries),
       ended := Put(w.ended, Retries.EndsWell(w.retry.maxAttempts, c.tries)))
  }

  lemma CallsDone(w: World, c: Sequential.Call)
    requires Chains.Tracked(w.chains) && Sequential.Reached(StackOf(w), c)
    ensures var es := if w.retry.maxAttempts > 0 then CallSteps(w.retry.maxAttempts, c.tries, 0) else [];
      Legal(Admitted(w, c.now), es) && After(Admitted(w, c.now), es) == ToReport(w, c)
  {
    var a := Admitted(w, c.now);
    if w.retry.maxAttempts > 0 {
      PutTaken(w.calling, 0);
      CallsAlone(a, c.tries, 0);
    } else {
      assert Retries.Calls(w.retry.maxAttempts, c.tries, 0) == 0;
    }
    hide Put, Take, Limits.Step, Limits.Grants, Chains.Tracked, CallSteps, Retries.Calls;
  }

  lemma Reported(w: World, c: Sequential.Call)
    requires Chains.Tracked(w.chains) && Sequential.Reached(StackOf(w), c)
    ensures var u, done := ToReport(w, c), Complete(Sequential.PrimaryWorks(StackOf(w), c));
      && Legal(u, [done])
      && var v := After(u, [done]);
      && StackOf(v) == Sequential.AfterPrimary(StackOf(w), c)
      && v.calling == w.calling && v.sleeping == w.sleeping && v.ended == w.ended && v.chains == w.chains
      && v.refused == w.refused
  {
    var ok := Retries.EndsWell(w.retry.maxAttempts, c.tries);
    PutTaken(w.ended, ok);
    OneEvent(ToReport(w, c), Complete(ok));
    hide Put, Take, Limits.Step, Limits.Grants, Chains.Tracked, Retries.Retried, Retries.EndsWell, Breakers.Succeeded,
         Breakers.Failed;
  }

  /** A request whose steps follow each other is the sequential one, whatever else is under way; it is refused by the
      breaker exactly if that is OPEN at its admission. */
  lemma RequestAlone(w: World, c: Sequential.Call)
    requires Chains.Tracked(w.chains)
    ensures var es, s := RequestSteps(w, c), StackOf(w);
      && Legal(w, es)
      && var v := After(w, es);
      && StackOf(v) == Sequential.AfterPrimary(s, c)
      && v.calling == w.calling && v.sleeping == w.sleeping && v.ended == w.ended && v.chains == w.chains
      && v.refused == w.refused + if Sequential.Admitted(s, c) && w.breaker.state == Breakers.Open then 1 else 0
  {
    OneEvent(w, Admit(c.now));
    if Sequential.Reached(StackOf(w), c) {
      var calls := if w.retry.maxAttempts > 0 then CallSteps(w.retry.maxAttempts, c.tries, 0) else [];
      CallsDone(w, c);
      Reported(w, c);
      hide *;
      AfterConcat(Admitted(w, c.now), calls, [Complete(Sequential.PrimaryWorks(StackOf(w), c))]);
      AfterConcat(w, [Admit(c.now)], calls + [Complete(Sequential.PrimaryWorks(StackOf(w), c))]);
    }
  }
}
