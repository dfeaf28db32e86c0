/** Token bucket (rateLimiter.ts). Times are in milliseconds, tokens are reals. */
module RateLimiting {
  /** `requests` and the two counters since the last reset. */
  datatype Bucket = Bucket(maxTokens: real, rate: real, tokens: real, last: real, allowed: nat, rejected: nat)

  /** Both operations read the clock and refill. */
  datatype Event = TryConsume(at: real) | ReadMetrics(at: real)

  function Min(a: real, b: real): real {
    if b < a then b else a
  }

  /** What flows into the bucket between two times. */
  function Flow(rate: real, since: real, until: real): real {
    (until - since) * rate
  }

  function Refilled(b: Bucket, now: real): Bucket {
    b.(tokens := Min(b.maxTokens, b.tokens + Flow(b.rate, b.last, now)), last := now)
  }

  predicate Grants(b: Bucket, e: Event) {
    e.TryConsume? && Refilled(b, e.at).tokens >= 1.0
  }

  function Step(b: Bucket, e: Event): Bucket {
    var r := Refilled(b, e.at);
    if e.ReadMetrics? then r
    else if r.tokens >= 1.0 then r.(tokens := r.tokens - 1.0, allowed := r.allowed + 1)
    else r.(rejected := r.rejected + 1)
  }

  class RateLimiter {
    const maxTokens: real
    const refillRate: real
    var tokens: real
    var lastRefillTime: real
    var allowed: nat
    var rejected: nat

    function State(): Bucket
      reads this
    {
      Bucket(maxTokens, refillRate, tokens, lastRefillTime, allowed, rejected)
    }

    constructor (requestsPerSecond: real, burst: real, now: real)
      ensures State() == Bucket(burst, requestsPerSecond / 1000.0, burst, now, 0, 0)
    {
      maxTokens, refillRate, tokens := burst, requestsPerSecond / 1000.0, burst;
      lastRefillTime, allowed, rejected := now, 0, 0;
    }

    method Refill(now: real)
      modifies this
      ensures State() == Refilled(old(State()), now)
    {
      var timePassed := now - lastRefillTime;
      var tokensToAdd := timePassed * refillRate;
      tokens := Min(maxTokens, tokens + tokensToAdd);
      lastRefillTime := now;
    }

    method TryConsume(now: real) returns (ok: bool)
      modifies this
      ensures State() == Step(old(State()), Event.TryConsume(now))
      ensures ok == Grants(old(State()), Event.TryConsume(now))
    {
      Refill(now);
      if tokens >= 1.0 {
        tokens := tokens - 1.0;
        allowed := allowed + 1;
        return true;
      }
      rejected := rejected + 1;
      return false;
    }

    /** What other callers do to the limiter. */
    method RunOthers(others: seq<Event>)
      modifies this
      ensures State() == Run(old(State()), others)
    {
      var i := 0;
      hide Step, Flow;
      while i < |others|
        invariant 0 <= i <= |others| && Run(State(), others[i..]) == Run(old(State()), others)
      {
        assert others[i..][1..] == others[i + 1..];
        match others[i] {
          case TryConsume(at) => var _ := TryConsume(at);
          case ReadMetrics(at) => var _, _, _ := GetMetrics(at);
        }
        i := i + 1;
      }
    }

    method GetMetrics(now: real) returns (tokensAvailable: int, allowed: nat, rejected: nat)
      modifies this
      ensures State() == Step(old(State()), ReadMetrics(now))
      ensures tokensAvailable == State().tokens.Floor && allowed == State().allowed && rejected == State().rejected
    {
      Refill(now);
      tokensAvailable, allowed, rejected := tokens.Floor, this.allowed, this.rejected;
    }
  }

  // ----- runs ------------------------------------------------------------

  predicate Sane(b: Bucket) {
    0.0 <= b.tokens <= b.maxTokens && b.rate >= 0.0
  }

  /** A run whose clock does not go back. */
  predicate Clocked(last: real, es: seq<Event>)
    decreases |es|
  {
    es == [] || (last <= es[0].at && Clocked(es[0].at, es[1..]))
  }

  function Run(b: Bucket, es: seq<Event>): Bucket
    decreases |es|
  {
    if es == [] then b else Run(Step(b, es[0]), es[1..])
  }

  /** How many requests of the run are granted with a clock reading in [t1, t2]. */
  function GrantedIn(b: Bucket, es: seq<Event>, t1: real, t2: real): nat
    decreases |es|
  {
    if es == [] then 0
    else OneIf(Grants(b, es[0]) && t1 <= es[0].at <= t2) + GrantedIn(Step(b, es[0]), es[1..], t1, t2)
  }

  function Requests(es: seq<Event>): nat {
    if es == [] then 0 else OneIf(es[0].TryConsume?) + Requests(es[1..])
  }

  lemma FlowAdds(rate: real, a: real, b: real, c: real)
    ensures Flow(rate, a, b) + Flow(rate, b, c) == Flow(rate, a, c)
  {
  }

  lemma FlowIsPositive(rate: real, a: real, b: real)
    requires rate >= 0.0 && a <= b
    ensures Flow(rate, a, b) >= 0.0
  {
  }

  function OneIf(granted: bool): nat {
    if granted then 1 else 0
  }

  /** A step keeps the tokens in range; a grant is paid out of the tokens and the inflow. */
  lemma StepSane(b: Bucket, e: Event)
    requires Sane(b) && b.last <= e.at
    ensures Sane(Step(b, e)) && Step(b, e).last == e.at
    ensures Step(b, e).maxTokens == b.maxTokens && Step(b, e).rate == b.rate
    ensures Step(b, e).tokens + OneIf(Grants(b, e)) as real <= b.tokens + Flow(b.rate, b.last, e.at)
    ensures Step(b, e).tokens + OneIf(Grants(b, e)) as real <= b.maxTokens
  {
    FlowIsPositive(b.rate, b.last, e.at);
    hide Flow;
  }

  /** 0 <= tokens <= maxTokens after every run, and every request is counted once. */
  lemma {:induction false} TokensStayInRange(b: Bucket, es: seq<Event>)
    requires Sane(b) && Clocked(b.last, es)
    ensures Sane(Run(b, es))
    ensures var r := Run(b, es);
      r.maxTokens == b.maxTokens && r.rate == b.rate
      && r.allowed + r.rejected == b.allowed + b.rejected + Requests(es)
    decreases |es|
  {
    if es != [] {
      StepSane(b, es[0]);
      TokensStayInRange(Step(b, es[0]), es[1..]);
    }
  }

  lemma {:induction false} NoGrantsAfter(b: Bucket, es: seq<Event>, t1: real, t2: real)
    requires Clocked(b.last, es) && t2 < b.last
    ensures GrantedIn(b, es, t1, t2) == 0
    decreases |es|
  {
    if es != [] {
      NoGrantsAfter(Step(b, es[0]), es[1..], t1, t2);
    }
  }

  /** From a state inside the interval: what is in the bucket plus what flows in until the end. */
  lemma {:induction false} GrantsFromWithin(b: Bucket, es: seq<Event>, t1: real, t2: real)
    requires Sane(b) && Clocked(b.last, es) && b.last <= t2
    ensures GrantedIn(b, es, t1, t2) as real <= b.tokens + Flow(b.rate, b.last, t2)
    decreases |es|
  {
    FlowIsPositive(b.rate, b.last, t2);
    if es != [] {
      var e, c := es[0], Step(b, es[0]);
      StepSane(b, e);
      if e.at <= t2 {
        GrantsFromWithin(c, es[1..], t1, t2);
        FlowAdds(b.rate, b.last, e.at, t2);
      } else {
        NoGrantsAfter(c, es[1..], t1, t2);
      }
      hide Flow, Step, Grants;
    }
  }

  /** In every run with a clock that does not go back, the grants within [t1, t2] are at most
      maxTokens + rate * (t2 - t1). */
  lemma {:induction false} GrantBound(b: Bucket, es: seq<Event>, t1: real, t2: real)
    requires Sane(b) && Clocked(b.last, es) && t1 <= t2
    ensures GrantedIn(b, es, t1, t2) as real <= b.maxTokens + Flow(b.rate, t1, t2)
    decreases |es|
  {
    FlowIsPositive(b.rate, t1, t2);
    if es != [] {
      var e, c := es[0], Step(b, es[0]);
      StepSane(b, e);
      if e.at < t1 {
        GrantBound(c, es[1..], t1, t2);
      } else if e.at <= t2 {
        GrantsFromWithin(c, es[1..], t1, t2);
        FlowAdds(b.rate, t1, e.at, t2);
        FlowIsPositive(b.rate, t1, e.at);
      } else {
        NoGrantsAfter(c, es[1..], t1, t2);
      }
      hide Flow, Step, Grants;
    }
  }

  // ----- exactly which requests are granted ------------------------------

  /** How many requests of the run are granted from event `i` on. */
  function GrantedFrom(b: Bucket, es: seq<Event>, i: nat): nat
    requires i <= |es|
    decreases |es|
  {
    if es == [] then 0
    else if i > 0 then GrantedFrom(Step(b, es[0]), es[1..], i - 1)
    else OneIf(Grants(b, es[0])) + GrantedFrom(Step(b, es[0]), es[1..], 0)
  }

  /** Whether one request more, after `granted` ones since a time when there were `tokens`, is within what flowed in. */
  predicate Affordable(granted: nat, tokens: real, rate: real, since: real, now: real) {
    granted as real + 1.0 <= tokens + (now - since) * rate
  }

  /** From every event on, even if the bucket was full then. */
  predicate AlwaysAffordable(b: Bucket, es: seq<Event>, now: real) {
    forall i :: 0 <= i < |es| ==> Affordable(GrantedFrom(b, es, i), b.maxTokens, b.rate, es[i].at, now)
  }

  lemma AffordableLater(b: Bucket, es: seq<Event>, now: real)
    requires es != []
    ensures AlwaysAffordable(b, es, now) <==>
      && Affordable(GrantedFrom(b, es, 0), b.maxTokens, b.rate, es[0].at, now)
      && AlwaysAffordable(Step(b, es[0]), es[1..], now)
  {
    var c, rest := Step(b, es[0]), es[1..];
    assert c.maxTokens == b.maxTokens && c.rate == b.rate;
    hide Affordable, Step;
    forall i | 1 <= i < |es| ensures es[i] == rest[i - 1] && GrantedFrom(b, es, i) == GrantedFrom(c, rest, i - 1) {
    }
    hide GrantedFrom;
    if AlwaysAffordable(b, es, now) {
      forall i | 0 <= i < |rest| ensures Affordable(GrantedFrom(c, rest, i), c.maxTokens, c.rate, rest[i].at, now) {
        assert Affordable(GrantedFrom(b, es, i + 1), b.maxTokens, b.rate, es[i + 1].at, now);
      }
    }
  }

  lemma AffordFirst(b: Bucket, e: Event, granted: nat, now: real)
    ensures var c, all := Step(b, e), OneIf(Grants(b, e)) + granted;
      Affordable(granted, c.tokens, c.rate, c.last, now)
      <==> Affordable(all, b.tokens, b.rate, b.last, now) && Affordable(all, b.maxTokens, b.rate, e.at, now)
  {
    FlowAdds(b.rate, b.last, e.at, now);
    var all := OneIf(Grants(b, e)) + granted;
    assert all as real == OneIf(Grants(b, e)) as real + granted as real;
  }

  /** A request is granted exactly when the bucket holds a token at all and, counting this request, the grants since
      the beginning stay within the tokens there were plus the inflow, and the grants from each event on within a full
      bucket plus the inflow since: no token is lost but what a full bucket cannot hold. */
  lemma {:induction false} GrantedExactly(b: Bucket, es: seq<Event>, now: real)
    ensures Grants(Run(b, es), TryConsume(now)) <==>
      && b.maxTokens >= 1.0 && Affordable(GrantedFrom(b, es, 0), b.tokens, b.rate, b.last, now)
      && AlwaysAffordable(b, es, now)
    decreases |es|
  {
    if es != [] {
      var c, rest := Step(b, es[0]), es[1..];
      GrantedExactly(c, rest, now);
      AffordFirst(b, es[0], GrantedFrom(c, rest, 0), now);
      AffordableLater(b, es, now);
      assert c.maxTokens == b.maxTokens;
      hide Affordable, AlwaysAffordable, Step, Grants;
    }
  }

  /** `n` requests at once. */
  function AtOnce(n: nat, now: real): (es: seq<Event>)
    ensures |es| == n && forall e <- es :: e == TryConsume(now)
  {
    seq(n, _ => TryConsume(now))
  }

  /** Of any number of requests at one time, a bucket grants the first ones, as many as it holds whole tokens then. */
  lemma {:induction false} BurstGranted(b: Bucket, n: nat, now: real)
    requires Sane(b) && b.last <= now
    ensures var whole := Refilled(b, now).tokens.Floor;
      GrantedFrom(b, AtOnce(n, now), 0) == if n < whole then n else whole
    decreases n
  {
    if n > 0 {
      var c, rest := Step(b, TryConsume(now)), AtOnce(n, now)[1..];
      assert rest == AtOnce(n - 1, now);
      StepSane(b, TryConsume(now));
      BurstGranted(c, n - 1, now);
      assert Flow(b.rate, now, now) == 0.0;
    }
    FlowIsPositive(b.rate, b.last, now);
  }

  lemma {:induction false} AllWithin(b: Bucket, es: seq<Event>, t1: real, t2: real)
    requires forall e <- es :: t1 <= e.at <= t2
    ensures GrantedIn(b, es, t1, t2) == GrantedFrom(b, es, 0)
    decreases |es|
  {
    if es != [] {
      AllWithin(Step(b, es[0]), es[1..], t1, t2);
    }
  }

  /** So a full bucket grants a burst of as many requests as it can hold whole tokens. */
  lemma FullBucketBurst(b: Bucket, n: nat, now: real)
    requires Sane(b) && b.last <= now && b.tokens == b.maxTokens
    ensures GrantedIn(b, AtOnce(n, now), now, now) == if n < b.maxTokens.Floor then n else b.maxTokens.Floor
  {
    BurstGranted(b, n, now);
    AllWithin(b, AtOnce(n, now), now, now);
    FlowIsPositive(b.rate, b.last, now);
  }

  /** A bucket smaller than one token never grants anything, however long it is left to fill. */
  lemma {:induction false} SmallBucketStarves(b: Bucket, es: seq<Event>, t1: real, t2: real)
    requires b.maxTokens < 1.0
    ensures GrantedIn(b, es, t1, t2) == 0
    decreases |es|
  {
    if es != [] {
      SmallBucketStarves(Step(b, es[0]), es[1..], t1, t2);
    }
  }

  /** A request that comes one token's worth of time after the last one is granted exactly when the bucket can
      hold a whole token. */
  lemma PatientRequestGranted(b: Bucket, now: real)
    requires Sane(b) && b.rate > 0.0 && now >= b.last + 1.0 / b.rate
    ensures Grants(b, TryConsume(now)) <==> b.maxTokens >= 1.0
  {
    var wait := 1.0 / b.rate;
    FlowAdds(b.rate, b.last, b.last + wait, now);
    FlowIsPositive(b.rate, b.last + wait, now);
    assert Flow(b.rate, b.last, b.last + wait) == 1.0;
    hide Flow;
  }
}
