/** Fallback chain (fallbackChain.ts): providers in priority order, each with its own health state. */
module FallbackChaining {
  import opened StableSort

  datatype State = Closed | Open | HalfOpen

  datatype Provider = Provider(name: string, priority: real)

  datatype Health = Health(state: State, consecutive: nat, timer: bool)

  type Counts = map<string, nat>

  datatype Chain = Chain(threshold: int, providers: seq<Provider>, health: map<string, Health>,
                         attempts: Counts, successes: Counts, failures: Counts, total: nat)

  const PRIORITY := (p: Provider) => p.priority

  function EmptyChain(threshold: int): Chain {
    Chain(threshold, [], map[], map[], map[], map[], 0)
  }

  function Names(ps: seq<Provider>): set<string> {
    set p | p in ps :: p.name
  }

  /** Every registered provider has its health and its counters. */
  ghost predicate Known(c: Chain) {
    && c.health.Keys == c.attempts.Keys == c.successes.Keys == c.failures.Keys
    && (forall p <- c.providers :: p.name in c.health)
  }

  // ----- single steps ----------------------------------------------------

  /** A name registered again starts afresh. */
  function Added(c: Chain, p: Provider): Chain {
    c.(providers := SortBy(c.providers + [p], PRIORITY), health := c.health[p.name := Health(Closed, 0, false)],
       attempts := c.attempts[p.name := 0], successes := c.successes[p.name := 0], failures := c.failures[p.name := 0])
  }

  function Bump(m: Counts, name: string): Counts
    requires name in m
  {
    m[name := m[name] + 1]
  }

  function Attempted(c: Chain, name: string): Chain
    requires name in c.attempts
  {
    c.(total := c.total + 1, attempts := Bump(c.attempts, name))
  }

  function Succeeded(c: Chain, name: string): Chain
    requires name in c.successes
  {
    c.(health := c.health[name := Health(Closed, 0, false)], successes := Bump(c.successes, name))
  }

  function AfterFailure(h: Health, threshold: int): Health {
    var n := h.consecutive + 1;
    if h.state == Closed && n >= threshold then Health(Open, n, true)
    else if h.state == HalfOpen then Health(Open, n, true)
    else h.(consecutive := n)
  }

  /** A failure leaves a provider CLOSED only below the threshold, and opens one that was HALF_OPEN; a timer starts
      whenever the state changes. */
  lemma FailureOpens(h: Health, threshold: int)
    ensures var d := AfterFailure(h, threshold);
      && d.consecutive == h.consecutive + 1 && d.state != HalfOpen
      && (d.state == Closed <==> h.state == Closed && h.consecutive + 1 < threshold)
      && (d.timer <==> h.timer || d.state != h.state)
  {
  }

  function Failed(c: Chain, name: string): Chain
    requires name in c.failures && name in c.health
  {
    c.(health := c.health[name := AfterFailure(c.health[name], c.threshold)], failures := Bump(c.failures, name))
  }

  function Fired(c: Chain, name: string): Chain
    requires name in c.health
  {
    c.(health := c.health[name := c.health[name].(state := HalfOpen, timer := false)])
  }

  // ----- a whole call ----------------------------------------------------

  function Eligible(c: Chain, ps: seq<Provider>): seq<Provider>
    requires forall p <- ps :: p.name in c.health
  {
    if ps == [] then []
    else (if c.health[ps[0].name].state != Open then [ps[0]] else []) + Eligible(c, ps[1..])
  }

  lemma {:induction false} EligibleAreProviders(c: Chain, ps: seq<Provider>)
    requires forall p <- ps :: p.name in c.health
    ensures forall p :: p in Eligible(c, ps) <==> p in ps && c.health[p.name].state != Open
  {
    if ps != [] {
      EligibleAreProviders(c, ps[1..]);
      assert ps == [ps[0]] + ps[1..];
    }
  }

  /** The providers that are not OPEN, or all when every one is. */
  function ToTry(c: Chain): (ps: seq<Provider>)
    requires Known(c)
    ensures forall p <- ps :: p.name in c.health
  {
    EligibleAreProviders(c, c.providers);
    var eligible := Eligible(c, c.providers);
    if eligible != [] then eligible else c.providers
  }

  datatype Reply = NoProviders | Exhausted | Answered(winner: Provider)

  /** How a provider ends when it is asked. */
  type Works = Provider -> bool

  function TryEach(c: Chain, ps: seq<Provider>, works: Works): (r: (Chain, Reply))
    requires Known(c) && forall p <- ps :: p.name in c.health
    ensures Known(r.0) && r.0.health.Keys == c.health.Keys
    decreases |ps|
  {
    if ps == [] then (c, Exhausted)
    else
      var d := Attempted(c, ps[0].name);
      if works(ps[0]) then (Succeeded(d, ps[0].name), Answered(ps[0]))
      else TryEach(Failed(d, ps[0].name), ps[1..], works)
  }

  function Executed(c: Chain, works: Works): (r: (Chain, Reply))
    requires Known(c)
    ensures Known(r.0) && r.0.health.Keys == c.health.Keys
  {
    if c.providers == [] then (c, NoProviders) else TryEach(c, ToTry(c), works)
  }

  class FallbackChain {
    const threshold: int
    var providers: seq<Provider>
    var health: map<string, Health>
    var attempts: Counts
    var successes: Counts
    var failures: Counts
    var totalAttempts: nat

    function Value(): Chain
      reads this
    {
      Chain(threshold, providers, health, attempts, successes, failures, totalAttempts)
    }

    constructor (threshold: int)
      ensures Value() == EmptyChain(threshold)
    {
      this.threshold, providers, health := threshold, [], map[];
      attempts, successes, failures, totalAttempts := map[], map[], map[], 0;
    }

    method AddProvider(p: Provider)
      modifies this
      ensures Value() == Added(old(Value()), p)
    {
      providers := providers + [p];
      providers := SortBy(providers, PRIORITY);
      attempts, successes, failures := attempts[p.name := 0], successes[p.name := 0], failures[p.name := 0];
      health := health[p.name := Health(Closed, 0, false)];
    }

    function HasProviders(): (some: bool)
      reads this
      ensures some <==> exists p :: p in providers
    {
      assert |providers| > 0 ==> providers[0] in providers;
      |providers| > 0
    }

    /** The callback of a provider's reset timer. */
    method FireTimer(name: string)
      requires name in health && health[name].timer
      modifies this
      ensures Value() == Fired(old(Value()), name)
    {
      health := health[name := health[name].(state := HalfOpen, timer := false)];
    }

    method RecordAttempt(name: string)
      requires Known(Value()) && name in health
      modifies this
      ensures Value() == Attempted(old(Value()), name)
    {
      totalAttempts := totalAttempts + 1;
      attempts := attempts[name := attempts[name] + 1];
    }

    method RecordSuccess(name: string)
      requires Known(Value()) && name in health
      modifies this
      ensures Value() == Succeeded(old(Value()), name)
    {
      health := health[name := Health(Closed, 0, false)];
      successes := successes[name := successes[name] + 1];
    }

    method RecordFailure(name: string)
      requires Known(Value()) && name in health
      modifies this
      ensures Value() == Failed(old(Value()), name)
    {
      failures := failures[name := failures[name] + 1];
      var h := health[name].(consecutive := health[name].consecutive + 1);
      if h.state == Closed && h.consecutive >= threshold {
        h := h.(state := Open, timer := true);
      } else if h.state == HalfOpen {
        h := h.(state := Open, timer := true);
      }
      health := health[name := h];
    }

    /** What runs while a provider is awaited: attempts of other calls, their completions, timers, registrations. */
    method RunOthers(others: seq<Event>, ghost inFlight: Counts)
      requires Tracked(System(Value(), inFlight)) && Legal(System(Value(), inFlight), others)
      modifies this
      ensures Value() == After(System(old(Value()), inFlight), others).chain
    {
      ghost var s := System(Value(), inFlight);
      var i := 0;
      hide *;
      while i < |others|
        invariant 0 <= i <= |others| && s.chain == Value() && Tracked(s) && Legal(s, others[i..])
        invariant After(s, others[i..]) == After(System(old(Value()), inFlight), others)
      {
        LegalStep(s, others, i);
        RunEvent(others[i], s.inFlight);
        s := Next(s, others[i]);
        i := i + 1;
      }
      assert others[i..] == [];
      AfterNone(s);
    }

    method RunEvent(e: Event, ghost inFlight: Counts)
      requires Tracked(System(Value(), inFlight)) && Enabled(System(Value(), inFlight), e)
      modifies this
      ensures Value() == Next(System(old(Value()), inFlight), e).chain
    {
      match e
      case Add(p) => AddProvider(p);
      case Attempt(n) => RecordAttempt(n);
      case Succeed(n) => RecordSuccess(n);
      case Fail(n) => RecordFailure(n);
      case Fire(n) => FireTimer(n);
    }

    /** `others[i]` is what happens while the provider at position `i` is awaited, and `inFlight` counts the attempts of
        other calls. The eligible providers are a copy; when there is none the loop walks the list of all providers
        itself, which grows under it when one is registered. The call is the interleaved run of `Trace`. */
    method Execute(works: Works, others: Others, ghost inFlight: Counts) returns (reply: Reply)
      requires Tracked(System(Value(), inFlight))
      requires Legal(System(Value(), inFlight), Trace(AllOpen(Value()), ToTry(Value()), works, others, 0))
      modifies this
      ensures reply == Answer(old(Value()), works, others)
      ensures var c := old(Value());
        Value() == After(System(c, inFlight), Trace(AllOpen(c), ToTry(c), works, others, 0)).chain
    {
      if |providers| == 0 {
        return NoProviders;
      }
      var eligibleProviders := Eligible(Value(), providers);
      var live := eligibleProviders == [];
      var providersToTry := if live then providers else eligibleProviders;
      ghost var start, first := System(Value(), inFlight), providersToTry;
      ghost var s := start;
      AnswerFrom(start.chain, works, others);
      var i := 0;
      hide *;
      while i < |providersToTry|
        invariant 0 <= i && s.chain == Value() && Tracked(s) && (live ==> providersToTry == providers)
        invariant Legal(s, Trace(live, providersToTry, works, others, i))
        invariant After(s, Trace(live, providersToTry, works, others, i))
          == After(start, Trace(live, first, works, others, 0))
        invariant Answer(start.chain, works, others) == AnswerOf(live, providersToTry, works, others, i)
        decreases Left(|others|, i), Left(|providersToTry|, i)
      {
        var p := providersToTry[i];
        AnswerStep(live, providersToTry, works, others, i);
        TraceStep(s, live, providersToTry, works, others, i);
        Quiet(providersToTry, others, i);
        RecordAttempt(p.name);
        s := Next(s, Attempt(p.name));
        GrownBy(s, During(others, i));
        RunOthers(During(others, i), s.inFlight);
        s := After(s, During(others, i));
        if works(p) {
          RecordSuccess(p.name);
          s := Next(s, Succeed(p.name));
          return Answered(p);
        }
        RecordFailure(p.name);
        s := Next(s, Fail(p.name));
        providersToTry := if live then providers else providersToTry;
        i := i + 1;
      }
      AnswerEnds(live, providersToTry, works, others, i);
      TraceNone(s, live, providersToTry, works, others, i);
      return Exhausted;
    }
  }

  // ----- one call in sequential use --------------------------------------

  predicate DistinctNames(ps: seq<Provider>) {
    ps == [] || ((forall q <- ps[1..] :: q.name != ps[0].name) && DistinctNames(ps[1..]))
  }

  /** Index of the first provider that works, or the length. */
  function FirstWorking(ps: seq<Provider>, works: Works): (k: nat)
    ensures k <= |ps| && (forall i :: 0 <= i < k ==> !works(ps[i])) && (k < |ps| ==> works(ps[k]))
  {
    if ps == [] || works(ps[0]) then 0 else 1 + FirstWorking(ps[1..], works)
  }

  function One(yes: bool): nat {
    if yes then 1 else 0
  }

  /** What one call does to the record of one provider. */
  ghost predicate Touched(c: Chain, d: Chain, name: string, failed: bool, succeeded: bool)
    requires Known(c) && Known(d) && name in c.health && name in d.health
  {
    && d.attempts[name] == c.attempts[name] + One(failed || succeeded)
    && d.failures[name] == c.failures[name] + One(failed)
    && d.successes[name] == c.successes[name] + One(succeeded)
    && d.health[name] == if succeeded then Health(Closed, 0, false)
                         else if failed then AfterFailure(c.health[name], c.threshold) else c.health[name]
  }

  lemma {:induction false} TryEachReply(c: Chain, ps: seq<Provider>, works: Works)
    requires Known(c) && forall p <- ps :: p.name in c.health
    ensures var r, k := TryEach(c, ps, works), FirstWorking(ps, works);
      && r.1 == (if k < |ps| then Answered(ps[k]) else Exhausted)
      && r.0.total == c.total + (if k < |ps| then k + 1 else |ps|)
      && r.0.providers == c.providers && r.0.threshold == c.threshold
    decreases |ps|
  {
    if ps != [] && !works(ps[0]) {
      TryEachReply(Failed(Attempted(c, ps[0].name), ps[0].name), ps[1..], works);
    }
  }

  /** A failed attempt at `name`. */
  function Missed(c: Chain, name: string): (d: Chain)
    requires Known(c) && name in c.health
    ensures Known(d) && d.health.Keys == c.health.Keys && d.threshold == c.threshold
  {
    Failed(Attempted(c, name), name)
  }

  lemma MissTouchesOne(c: Chain, name: string, n: string)
    requires Known(c) && name in c.health && n in c.health
    ensures Touched(c, Missed(c, name), n, n == name, false)
  {
  }

  lemma HitTouchesOne(c: Chain, name: string, n: string)
    requires Known(c) && name in c.health && n in c.health
    ensures var d := Succeeded(Attempted(c, name), name);
      Known(d) && d.health.Keys == c.health.Keys && Touched(c, d, n, false, n == name)
  {
  }

  lemma TouchOnce(c: Chain, d: Chain, e: Chain, n: string, failed: bool, succeeded: bool)
    requires Known(c) && Known(d) && Known(e) && n in c.health && n in d.health && n in e.health
    requires d.threshold == c.threshold
    ensures Touched(c, d, n, false, false) && Touched(d, e, n, failed, succeeded) ==>
      Touched(c, e, n, failed, succeeded)
    ensures Touched(c, d, n, failed, succeeded) && Touched(d, e, n, false, false) ==>
      Touched(c, e, n, failed, succeeded)
  {
  }

  lemma {:induction false} TryEachSpares(c: Chain, ps: seq<Provider>, works: Works, name: string)
    requires Known(c) && name in c.health && forall p <- ps :: p.name in c.health && p.name != name
    ensures Touched(c, TryEach(c, ps, works).0, name, false, false)
    decreases |ps|
  {
    if ps != [] {
      var d := Missed(c, ps[0].name);
      MissTouchesOne(c, ps[0].name, name);
      HitTouchesOne(c, ps[0].name, name);
      if !works(ps[0]) {
        TryEachSpares(d, ps[1..], works, name);
        TouchOnce(c, d, TryEach(d, ps[1..], works).0, name, false, false);
      }
      hide Attempted, Succeeded, Failed, Touched, Known;
    }
  }

  lemma {:induction false} TryEachTouches(c: Chain, ps: seq<Provider>, works: Works, i: nat)
    requires Known(c) && (forall p <- ps :: p.name in c.health) && DistinctNames(ps) && i < |ps|
    ensures var k := FirstWorking(ps, works); Touched(c, TryEach(c, ps, works).0, ps[i].name, i < k, i == k)
    decreases |ps|
  {
    hide *;
    var d, n := Missed(c, ps[0].name), ps[i].name;
    TryEachFirst(c, ps, works);
    LaterNameDiffers(ps, i);
    if works(ps[0]) {
      HitTouchesOne(c, ps[0].name, n);
    } else {
      var k, rest := FirstWorking(ps, works), ps[1..];
      MissTouchesOne(c, ps[0].name, n);
      if i == 0 {
        TryEachSpares(d, rest, works, n);
      } else {
        TryEachTouches(d, rest, works, i - 1);
      }
      TouchOnce(c, d, TryEach(d, rest, works).0, n, i < k, i == k);
    }
  }

  lemma TryEachFirst(c: Chain, ps: seq<Provider>, works: Works)
    requires Known(c) && ps != [] && forall p <- ps :: p.name in c.health
    ensures FirstWorking(ps, works) == if works(ps[0]) then 0 else 1 + FirstWorking(ps[1..], works)
    ensures var d := Missed(c, ps[0].name); forall p <- ps[1..] :: p.name in d.health
    ensures TryEach(c, ps, works)
         == if works(ps[0]) then (Succeeded(Attempted(c, ps[0].name), ps[0].name), Answered(ps[0]))
            else TryEach(Missed(c, ps[0].name), ps[1..], works)
  {
  }

  lemma LaterNameDiffers(ps: seq<Provider>, i: nat)
    requires DistinctNames(ps) && i < |ps|
    ensures DistinctNames(ps[1..]) && forall q <- ps[1..] :: q.name != ps[0].name
    ensures i > 0 ==> ps[i] == ps[1..][i - 1] && ps[i].name != ps[0].name
  {
    if i > 0 {
      assert ps[i] == ps[1..][i - 1];
    }
  }

  lemma {:induction false} EligibleKeepsOrder(c: Chain, ps: seq<Provider>)
    requires (forall p <- ps :: p.name in c.health) && DistinctNames(ps) && Sorted(ps, PRIORITY)
    ensures DistinctNames(Eligible(c, ps)) && Sorted(Eligible(c, ps), PRIORITY)
  {
    if ps != [] {
      EligibleKeepsOrder(c, ps[1..]);
      EligibleAreProviders(c, ps[1..]);
      var rest := Eligible(c, ps[1..]);
      ConsInOrder(ps[0], rest);
      if c.health[ps[0].name].state != Open {
        assert Eligible(c, ps) == [ps[0]] + rest;
      } else {
        assert Eligible(c, ps) == [] + rest == rest;
      }
    }
  }

  lemma ConsInOrder(p: Provider, ps: seq<Provider>)
    requires DistinctNames(ps) && Sorted(ps, PRIORITY)
    requires forall q <- ps :: q.name != p.name && PRIORITY(p) <= PRIORITY(q)
    ensures DistinctNames([p] + ps) && Sorted([p] + ps, PRIORITY)
  {
    assert ([p] + ps)[1..] == ps;
  }

  /** Not OPEN, or nobody is. */
  ghost predicate Candidate(c: Chain, p: Provider)
    requires Known(c)
  {
    && p in c.providers
    && (c.health[p.name].state != Open || forall q <- c.providers :: c.health[q.name].state == Open)
  }

  lemma {:induction false} CandidatesInOrder(c: Chain)
    requires Known(c) && DistinctNames(c.providers) && Sorted(c.providers, PRIORITY)
    ensures DistinctNames(ToTry(c)) && Sorted(ToTry(c), PRIORITY)
    ensures forall p :: p in ToTry(c) <==> Candidate(c, p)
  {
    EligibleAreProviders(c, c.providers);
    EligibleKeepsOrder(c, c.providers);
    var eligible := Eligible(c, c.providers);
    if eligible == [] {
      forall q <- c.providers ensures c.health[q.name].state == Open {
        assert q !in eligible;
      }
    } else {
      assert eligible[0] in eligible;
    }
    hide Eligible, DistinctNames, Sorted;
  }

  /** In sequential use a call asks the eligible providers by priority (all of them when every one is OPEN), each at
      most once and only until one works; that one is the answer, and nobody else's record changes. */
  lemma {:induction false} ExecuteMeans(c: Chain, works: Works)
    requires Known(c) && DistinctNames(c.providers) && Sorted(c.providers, PRIORITY) && c.providers != []
    ensures var ps := ToTry(c); var k := FirstWorking(ps, works);
      && (forall p :: p in ps <==> Candidate(c, p))
      && (forall p <- ps :: k < |ps| && works(p) ==> ps[k].priority <= p.priority)
      && Executed(c, works).1 == (if k < |ps| then Answered(ps[k]) else Exhausted)
      && Executed(c, works).0.total == c.total + (if k < |ps| then k + 1 else |ps|)
      && (forall i :: 0 <= i < |ps| ==> Touched(c, Executed(c, works).0, ps[i].name, i < k, i == k))
      && (forall n <- c.health :: n !in Names(ps) ==> Touched(c, Executed(c, works).0, n, false, false))
  {
    var ps, k := ToTry(c), FirstWorking(ToTry(c), works);
    CandidatesInOrder(c);
    TryEachReply(c, ps, works);
    assert Executed(c, works) == TryEach(c, ps, works);
    hide *;
    forall i | 0 <= i < |ps| ensures Touched(c, TryEach(c, ps, works).0, ps[i].name, i < k, i == k) {
      TryEachTouches(c, ps, works, i);
    }
    forall n <- c.health | n !in Names(ps) ensures Touched(c, TryEach(c, ps, works).0, n, false, false) {
      NotNamed(ps, n);
      TryEachSpares(c, ps, works, n);
    }
    forall p <- ps | k < |ps| && works(p) ensures ps[k].priority <= p.priority {
      WinnerIsFirst(ps, works, p);
    }
  }

  lemma NotNamed(ps: seq<Provider>, n: string)
    requires n !in Names(ps)
    ensures forall p <- ps :: p.name != n
  {
  }

  lemma WinnerIsFirst(ps: seq<Provider>, works: Works, p: Provider)
    requires Sorted(ps, PRIORITY) && p in ps && works(p)
    ensures var k := FirstWorking(ps, works); k < |ps| && ps[k].priority <= p.priority
  {
    var i :| 0 <= i < |ps| && ps[i] == p;
    assert PRIORITY(ps[FirstWorking(ps, works)]) <= PRIORITY(ps[i]);
  }

  // ----- every interleaving ----------------------------------------------

  /** Completions and timer firings are atomic steps; an attempt may start at any provider at any time. */
  datatype Event = Add(provider: Provider) | Attempt(name: string) | Succeed(name: string) | Fail(name: string)
                 | Fire(name: string)

  datatype System = System(chain: Chain, inFlight: Counts)

  ghost predicate Tracked(s: System) {
    Known(s.chain) && s.inFlight.Keys == s.chain.health.Keys
  }

  /** Names are distinct, a completion needs an attempt in flight, a firing an armed timer. */
  ghost predicate Enabled(s: System, e: Event)
    requires Tracked(s)
  {
    match e
    case Add(p) => p.name !in s.chain.health
    case Attempt(n) => n in s.chain.health
    case Succeed(n) => n in s.chain.health && s.inFlight[n] > 0
    case Fail(n) => n in s.chain.health && s.inFlight[n] > 0
    case Fire(n) => n in s.chain.health && s.chain.health[n].timer
  }

  lemma AddedIsKnown(c: Chain, p: Provider)
    requires Known(c)
    ensures Known(Added(c, p))
  {
    SortMembers(c.providers + [p], PRIORITY);
    hide SortBy;
  }

  ghost function Next(s: System, e: Event): (t: System)
    requires Tracked(s) && Enabled(s, e)
    ensures Tracked(t)
  {
    match e
    case Add(p) =>
      AddedIsKnown(s.chain, p);
      System(Added(s.chain, p), s.inFlight[p.name := 0])
    case Attempt(n) => System(Attempted(s.chain, n), Bump(s.inFlight, n))
    case Succeed(n) => System(Succeeded(s.chain, n), s.inFlight[n := s.inFlight[n] - 1])
    case Fail(n) => System(Failed(s.chain, n), s.inFlight[n := s.inFlight[n] - 1])
    case Fire(n) => s.(chain := Fired(s.chain, n))
  }

  function Sum(ps: seq<Provider>, m: Counts): nat
    requires forall p <- ps :: p.name in m
  {
    if ps == [] then 0 else m[ps[0].name] + Sum(ps[1..], m)
  }

  ghost predicate HealthOk(h: Health, threshold: int) {
    && (h.state == Open <==> h.timer)
    && (h.state == Closed <==> h.consecutive < threshold)
  }

  ghost predicate CountsOk(s: System, name: string)
    requires Tracked(s) && name in s.chain.health
  {
    s.chain.attempts[name] == s.chain.successes[name] + s.chain.failures[name] + s.inFlight[name]
  }

  ghost predicate Ordered(c: Chain) {
    Sorted(c.providers, PRIORITY) && DistinctNames(c.providers) && Names(c.providers) == c.health.Keys
  }

  /** OPEN iff a timer is armed, CLOSED iff below the threshold, every attempt accounted for, and the total is the
      sum over the providers. */
  ghost predicate Inv(s: System) {
    && Tracked(s) && Ordered(s.chain)
    && (forall n <- s.chain.health :: HealthOk(s.chain.health[n], s.chain.threshold))
    && (forall n <- s.chain.health :: CountsOk(s, n))
    && s.chain.total == Sum(s.chain.providers, s.chain.attempts)
  }

  lemma {:induction false} SumBump(ps: seq<Provider>, m: Counts, name: string)
    requires (forall p <- ps :: p.name in m) && DistinctNames(ps) && name in m
    ensures Sum(ps, Bump(m, name)) == Sum(ps, m) + One(name in Names(ps))
  {
    if ps != [] {
      SumBump(ps[1..], m, name);
      assert ps == [ps[0]] + ps[1..];
      NamesCons(ps[0], ps[1..]);
    }
  }

  lemma {:induction false} SumSame(ps: seq<Provider>, m: Counts, n: Counts)
    requires forall p <- ps :: p.name in m && p.name in n && m[p.name] == n[p.name]
    ensures Sum(ps, m) == Sum(ps, n)
  {
    if ps != [] {
      SumSame(ps[1..], m, n);
    }
  }

  lemma NamesCons(p: Provider, ps: seq<Provider>)
    ensures Names([p] + ps) == {p.name} + Names(ps)
  {
  }

  lemma {:induction false} InsertProvider(p: Provider, ps: seq<Provider>, m: Counts)
    requires DistinctNames(ps) && p.name !in Names(ps) && p.name in m && forall q <- ps :: q.name in m
    ensures var r := Insert(p, ps, PRIORITY);
      && Names(r) == Names(ps) + {p.name} && DistinctNames(r)
      && (forall q <- r :: q.name in m) && Sum(r, m) == Sum(ps, m) + m[p.name]
  {
    if ps == [] || PRIORITY(p) < PRIORITY(ps[0]) {
      NamesCons(p, ps);
      assert ([p] + ps)[1..] == ps;
    } else {
      var r := Insert(p, ps[1..], PRIORITY);
      assert ps == [ps[0]] + ps[1..];
      NamesCons(ps[0], ps[1..]);
      InsertProvider(p, ps[1..], m);
      NamesCons(ps[0], r);
      InsertElements(p, ps[1..], PRIORITY);
      assert ([ps[0]] + r)[1..] == r;
    }
  }

  lemma AddedProviders(c: Chain, p: Provider)
    requires Sorted(c.providers, PRIORITY)
    ensures Added(c, p).providers == Insert(p, c.providers, PRIORITY)
    ensures Sorted(Added(c, p).providers, PRIORITY)
  {
    var all := c.providers + [p];
    SortedIsFixed(c.providers, PRIORITY);
    assert all[..|all| - 1] == c.providers;
    SortSorts(all, PRIORITY);
    hide Sorted;
  }

  lemma {:induction false} AddKeepsOrdered(c: Chain, p: Provider)
    requires Known(c) && Ordered(c) && p.name !in c.health
    ensures Ordered(Added(c, p)) && Known(Added(c, p))
  {
    AddedProviders(c, p);
    AddedHealth(c, p);
    InsertProvider(p, c.providers, Added(c, p).attempts);
    KnownByNames(Added(c, p));
    hide Insert, Sum, DistinctNames, Sorted, Names, Added;
  }

  lemma {:induction false} AddedHealth(c: Chain, p: Provider)
    requires Known(c) && Ordered(c) && p.name !in c.health
    ensures var d := Added(c, p);
      && d.health.Keys == d.attempts.Keys == d.successes.Keys == d.failures.Keys == c.health.Keys + {p.name}
      && (forall q <- c.providers ::
            q.name in d.attempts && q.name in c.attempts && d.attempts[q.name] == c.attempts[q.name])
      && d.attempts[p.name] == 0 && d.total == c.total && d.threshold == c.threshold
  {
    hide SortBy, Sorted, DistinctNames;
  }

  lemma KnownByNames(c: Chain)
    requires c.health.Keys == c.attempts.Keys == c.successes.Keys == c.failures.Keys == Names(c.providers)
    ensures Known(c)
  {
    assert forall p <- c.providers :: p.name in Names(c.providers);
  }

  lemma AddKeepsTotal(c: Chain, p: Provider)
    requires Known(c) && Ordered(c) && p.name !in c.health && Known(Added(c, p))
    ensures Sum(Added(c, p).providers, Added(c, p).attempts) == Sum(c.providers, c.attempts)
  {
    AddedProviders(c, p);
    AddedHealth(c, p);
    InsertProvider(p, c.providers, Added(c, p).attempts);
    SumSame(c.providers, c.attempts, Added(c, p).attempts);
    hide Insert, Sum, DistinctNames, Sorted, Names, Added;
  }

  /** What a step on one provider means for that provider. */
  lemma StepKeepsHealth(h: Health, threshold: int)
    requires HealthOk(h, threshold) && threshold >= 1
    ensures HealthOk(AfterFailure(h, threshold), threshold) && HealthOk(Health(Closed, 0, false), threshold)
    ensures h.timer ==> HealthOk(h.(state := HalfOpen, timer := false), threshold)
  {
  }

  lemma {:induction false} StepKeepsStates(s: System, e: Event, n: string)
    requires Inv(s) && s.chain.threshold >= 1 && Enabled(s, e) && n in Next(s, e).chain.health
    ensures HealthOk(Next(s, e).chain.health[n], s.chain.threshold)
  {
    hide Sum, SortBy, Ordered, CountsOk;
    if n in s.chain.health {
      assert HealthOk(s.chain.health[n], s.chain.threshold);
      StepKeepsHealth(s.chain.health[n], s.chain.threshold);
    }
    hide AfterFailure;
  }

  lemma {:induction false} StepKeepsCounts(s: System, e: Event, n: string)
    requires Inv(s) && Enabled(s, e) && n in Next(s, e).chain.health
    ensures CountsOk(Next(s, e), n)
  {
    hide Sum, SortBy, Ordered, HealthOk, AfterFailure;
    if n in s.chain.health {
      assert CountsOk(s, n);
    }
  }

  lemma {:induction false} StepKeepsTracked(s: System, e: Event)
    requires Tracked(s) && Ordered(s.chain) && Enabled(s, e)
    ensures Tracked(Next(s, e)) && Ordered(Next(s, e).chain)
    ensures Next(s, e).chain.threshold == s.chain.threshold
  {
    hide Sum, DistinctNames, SortBy, Sorted, Names;
    if e.Add? {
      AddKeepsOrdered(s.chain, e.provider);
      AddedHealth(s.chain, e.provider);
      hide Added;
    } else {
      assert Next(s, e).chain.providers == s.chain.providers;
      assert Next(s, e).chain.health.Keys == s.chain.health.Keys;
    }
  }

  lemma StepKeepsTotal(s: System, e: Event)
    requires Tracked(s) && Ordered(s.chain) && Enabled(s, e)
      && s.chain.total == Sum(s.chain.providers, s.chain.attempts)
    requires Known(Next(s, e).chain)
    ensures Next(s, e).chain.total == Sum(Next(s, e).chain.providers, Next(s, e).chain.attempts)
  {
    if e.Add? {
      AddKeepsTotal(s.chain, e.provider);
    } else if e.Attempt? {
      SumBump(s.chain.providers, s.chain.attempts, e.name);
    }
    hide Sum, DistinctNames, SortBy, Sorted;
  }

  lemma {:induction false} StepKeepsInv(s: System, e: Event)
    requires Inv(s) && s.chain.threshold >= 1 && Enabled(s, e)
    ensures Inv(Next(s, e)) && Next(s, e).chain.threshold == s.chain.threshold
  {
    StepKeepsTracked(s, e);
    StepKeepsTotal(s, e);
    forall n <- Next(s, e).chain.health
      ensures HealthOk(Next(s, e).chain.health[n], s.chain.threshold) && CountsOk(Next(s, e), n)
    {
      StepKeepsStates(s, e, n);
      StepKeepsCounts(s, e, n);
    }
    hide Next, Sum, Ordered, HealthOk, CountsOk, Enabled;
  }

  ghost predicate Legal(s: System, es: seq<Event>)
    requires Tracked(s)
    decreases |es|
  {
    es == [] || (Enabled(s, es[0]) && Legal(Next(s, es[0]), es[1..]))
  }

  ghost function After(s: System, es: seq<Event>): (t: System)
    requires Tracked(s) && Legal(s, es)
    ensures Tracked(t)
    decreases |es|
  {
    if es == [] then s else After(Next(s, es[0]), es[1..])
  }

  lemma {:induction false} RunKeepsInv(s: System, es: seq<Event>)
    requires Inv(s) && s.chain.threshold >= 1 && Legal(s, es)
    ensures Inv(After(s, es))
    decreases |es|
  {
    if es != [] {
      StepKeepsInv(s, es[0]);
      hide Inv;
      RunKeepsInv(Next(s, es[0]), es[1..]);
    }
  }

  /** The failures of a provider since its last success, `start` if there was neither. */
  function Trailing(es: seq<Event>, name: string, start: nat): nat
    decreases |es|
  {
    if es == [] then start else Trailing(es[1..], name, AfterEvent(es[0], name, start))
  }

  function AfterEvent(e: Event, name: string, n: nat): nat {
    if e == Succeed(name) then 0 else if e == Fail(name) then n + 1 else n
  }

  lemma StepCounts(s: System, e: Event, name: string)
    requires Tracked(s) && Enabled(s, e) && name in s.chain.health
    ensures name in Next(s, e).chain.health && Next(s, e).chain.threshold == s.chain.threshold
    ensures Next(s, e).chain.health[name].consecutive == AfterEvent(e, name, s.chain.health[name].consecutive)
  {
    hide SortBy;
  }

  lemma {:induction false} ConsecutiveByHistory(s: System, es: seq<Event>, name: string)
    requires Tracked(s) && Legal(s, es) && name in s.chain.health
    ensures var t := After(s, es);
      && name in t.chain.health && t.chain.threshold == s.chain.threshold
      && t.chain.health[name].consecutive == Trailing(es, name, s.chain.health[name].consecutive)
    decreases |es|
  {
    if es != [] {
      StepCounts(s, es[0], name);
      hide Next, Enabled, Known;
      ConsecutiveByHistory(Next(s, es[0]), es[1..], name);
    }
  }

  /** A registered provider is CLOSED exactly while fewer than `threshold` of its attempts have failed since its last
      success, whatever else happens in between. */
  lemma {:induction false} ClosedByHistory(s: System, es: seq<Event>, name: string)
    requires Inv(s) && s.chain.threshold >= 1 && Legal(s, es) && name in s.chain.health
    ensures var t := After(s, es);
      && name in t.chain.health
      && t.chain.health[name].consecutive == Trailing(es, name, s.chain.health[name].consecutive)
      && (t.chain.health[name].state == Closed <==>
            Trailing(es, name, s.chain.health[name].consecutive) < s.chain.threshold)
  {
    RunKeepsInv(s, es);
    ConsecutiveByHistory(s, es, name);
    var t := After(s, es);
    hide After, Legal, Trailing, Sum, Ordered, CountsOk, Known;
    assert HealthOk(t.chain.health[name], t.chain.threshold);
  }

  /** The invariant holds in every state reached from an empty chain, whatever the interleaving. */
  lemma {:induction false} ReachableInv(threshold: int, es: seq<Event>)
    requires threshold >= 1 && Legal(System(EmptyChain(threshold), map[]), es)
    ensures Inv(After(System(EmptyChain(threshold), map[]), es))
  {
    RunKeepsInv(System(EmptyChain(threshold), map[]), es);
  }

  // ----- a call as a run of the interleaved system -----------------------

  type Others = seq<seq<Event>>

  function During(others: Others, i: nat): seq<Event> {
    if i < |others| then others[i] else []
  }

  function Left(n: nat, i: nat): nat {
    if i < n then n - i else 0
  }

  function Ending(p: Provider, works: Works): Event {
    if works(p) then Succeed(p.name) else Fail(p.name)
  }

  /** The providers after the registrations among `es`. */
  function Grown(ps: seq<Provider>, es: seq<Event>): seq<Provider>
    decreases |es|
  {
    if es == [] then ps
    else Grown(if es[0].Add? then SortBy(ps + [es[0].provider], PRIORITY) else ps, es[1..])
  }

  /** The list that the loop walks after position `i`. */
  function NextList(live: bool, ps: seq<Provider>, others: Others, i: nat): (qs: seq<Provider>)
    ensures i >= |others| ==> qs == ps
  {
    if live then Grown(ps, During(others, i)) else ps
  }

  predicate AllOpen(c: Chain)
    requires Known(c)
  {
    Eligible(c, c.providers) == []
  }

  /** The run in which a call asks the providers from position `i` on, up to the first that works. */
  function Trace(live: bool, ps: seq<Provider>, works: Works, others: Others, i: nat): seq<Event>
    decreases Left(|others|, i), Left(|ps|, i)
  {
    if i >= |ps| then []
    else [Attempt(ps[i].name)] + (During(others, i) + ([Ending(ps[i], works)] +
         (if works(ps[i]) then [] else Trace(live, NextList(live, ps, others, i), works, others, i + 1))))
  }

  function AnswerOf(live: bool, ps: seq<Provider>, works: Works, others: Others, i: nat): Reply
    decreases Left(|others|, i), Left(|ps|, i)
  {
    if i >= |ps| then Exhausted
    else if works(ps[i]) then Answered(ps[i])
    else AnswerOf(live, NextList(live, ps, others, i), works, others, i + 1)
  }

  /** Who answers: the first provider that works on the list as it is when the loop comes to it. */
  function Answer(c: Chain, works: Works, others: Others): Reply
    requires Known(c)
  {
    if c.providers == [] then NoProviders else AnswerOf(AllOpen(c), ToTry(c), works, others, 0)
  }

  lemma {:induction false} AnswerOfFirst(live: bool, ps: seq<Provider>, works: Works, others: Others, i: nat)
    requires i <= |ps| && (live ==> forall es <- others, e <- es :: !e.Add?)
    ensures var k := FirstWorking(ps[i..], works);
      AnswerOf(live, ps, works, others, i) == if i + k < |ps| then Answered(ps[i + k]) else Exhausted
    decreases |ps| - i
  {
    if i < |ps| {
      assert ps[i..][1..] == ps[i + 1..];
      if !works(ps[i]) {
        if live {
          NothingGrown(ps, During(others, i));
        }
        AnswerOfFirst(live, ps, works, others, i + 1);
      }
    }
  }

  lemma {:induction false} NothingGrown(ps: seq<Provider>, es: seq<Event>)
    requires forall e <- es :: !e.Add?
    ensures Grown(ps, es) == ps
  {
    if es != [] {
      NothingGrown(ps, es[1..]);
    }
  }

  /** Unless the loop walks the live list and a provider is registered meanwhile, that is the first one on the list at
      the start that works, whatever else happens. */
  lemma {:induction false} AnswerIsFirst(c: Chain, works: Works, others: Others)
    requires Known(c) && (AllOpen(c) ==> forall es <- others, e <- es :: !e.Add?)
    ensures var ps := ToTry(c);
      var k := FirstWorking(ps, works);
      Answer(c, works, others)
      == if c.providers == [] then NoProviders else if k < |ps| then Answered(ps[k]) else Exhausted
  {
    assert ToTry(c)[0..] == ToTry(c);
    AnswerOfFirst(AllOpen(c), ToTry(c), works, others, 0);
  }

  lemma AnswerFrom(c: Chain, works: Works, others: Others)
    requires Known(c) && c.providers != []
    ensures Answer(c, works, others) == AnswerOf(AllOpen(c), ToTry(c), works, others, 0)
    ensures AllOpen(c) <==> Eligible(c, c.providers) == []
    ensures ToTry(c) == if AllOpen(c) then c.providers else Eligible(c, c.providers)
  {
  }

  lemma AnswerStep(live: bool, ps: seq<Provider>, works: Works, others: Others, i: nat)
    requires i < |ps|
    ensures AnswerOf(live, ps, works, others, i)
         == if works(ps[i]) then Answered(ps[i])
            else AnswerOf(live, NextList(live, ps, others, i), works, others, i + 1)
  {
  }

  lemma AnswerEnds(live: bool, ps: seq<Provider>, works: Works, others: Others, i: nat)
    requires i >= |ps|
    ensures AnswerOf(live, ps, works, others, i) == Exhausted
  {
  }

  /** The measure of the loop: once nothing more happens the list stays as it is. */
  lemma Quiet(ps: seq<Provider>, others: Others, i: nat)
    requires i < |ps|
    ensures Left(|others|, i + 1) < Left(|others|, i)
      || (Left(|others|, i + 1) == Left(|others|, i) && During(others, i) == [])
    ensures Left(|ps|, i + 1) < Left(|ps|, i) && Grown(ps, []) == ps
    ensures NextList(true, ps, others, i) == Grown(ps, During(others, i)) && NextList(false, ps, others, i) == ps
  {
  }

  /** The chain's providers grow as the list does. */
  lemma {:induction false} GrownBy(s: System, es: seq<Event>)
    requires Tracked(s) && Legal(s, es)
    ensures After(s, es).chain.providers == Grown(s.chain.providers, es)
    decreases |es|
  {
    if es != [] {
      NextGrows(s, es[0]);
      hide Next, Enabled;
      GrownBy(Next(s, es[0]), es[1..]);
    }
  }

  lemma NextGrows(s: System, e: Event)
    requires Tracked(s) && Enabled(s, e)
    ensures Next(s, e).chain.providers
         == if e.Add? then SortBy(s.chain.providers + [e.provider], PRIORITY) else s.chain.providers
  {
    hide SortBy;
  }

  lemma LegalStep(s: System, es: seq<Event>, i: nat)
    requires Tracked(s) && i < |es| && Legal(s, es[i..])
    ensures Enabled(s, es[i]) && Tracked(Next(s, es[i])) && Legal(Next(s, es[i]), es[i + 1..])
    ensures After(s, es[i..]) == After(Next(s, es[i]), es[i + 1..])
  {
    assert es[i..][1..] == es[i + 1..];
    hide Next, Enabled;
  }

  lemma AfterNone(s: System)
    requires Tracked(s)
    ensures Legal(s, []) && After(s, []) == s
  {
  }

  lemma {:induction false} LegalSplit(s: System, a: seq<Event>, b: seq<Event>)
    requires Tracked(s) && Legal(s, a + b)
    ensures Legal(s, a) && Legal(After(s, a), b) && After(s, a + b) == After(After(s, a), b)
    decreases |a|
  {
    if a == [] {
      assert a + b == b;
    } else {
      assert (a + b)[1..] == a[1..] + b;
      LegalSplit(Next(s, a[0]), a[1..], b);
    }
    hide Next, Enabled;
  }

  lemma LegalFirst(s: System, e: Event, b: seq<Event>)
    requires Tracked(s)
    ensures Legal(s, [e] + b) <==> Enabled(s, e) && Legal(Next(s, e), b)
    ensures Legal(s, [e] + b) ==> After(s, [e] + b) == After(Next(s, e), b)
  {
    assert ([e] + b)[1..] == b;
    hide Next, Enabled;
  }

  /** The three steps of a call, as the object takes them. */
  ghost predicate Attempts(s: System, name: string)
    requires Tracked(s)
  {
    Enabled(s, Attempt(name)) && name in s.chain.health && Next(s, Attempt(name)).chain == Attempted(s.chain, name)
  }

  ghost predicate Succeeds(s: System, name: string)
    requires Tracked(s)
  {
    Enabled(s, Succeed(name)) && name in s.chain.health && Next(s, Succeed(name)).chain == Succeeded(s.chain, name)
  }

  ghost predicate Fails(s: System, name: string)
    requires Tracked(s)
  {
    Enabled(s, Fail(name)) && name in s.chain.health && Next(s, Fail(name)).chain == Failed(s.chain, name)
  }

  lemma StepsOfACall(s: System, name: string)
    requires Tracked(s)
    ensures Enabled(s, Attempt(name)) <==> Attempts(s, name)
    ensures Enabled(s, Succeed(name)) <==> Succeeds(s, name)
    ensures Enabled(s, Fail(name)) <==> Fails(s, name)
  {
  }

  /** One round of the loop: the attempt, what happens meanwhile, how it ends. */
  lemma TraceStep(s: System, live: bool, ps: seq<Provider>, works: Works, others: Others, i: nat)
    requires Tracked(s) && i < |ps| && Legal(s, Trace(live, ps, works, others, i))
    ensures Attempts(s, ps[i].name)
    ensures var t := Next(s, Attempt(ps[i].name));
      && t.chain.providers == s.chain.providers && Legal(t, During(others, i))
      && var d := After(t, During(others, i)); var all := After(s, Trace(live, ps, works, others, i));
         if works(ps[i]) then Succeeds(d, ps[i].name) && all == Next(d, Succeed(ps[i].name))
         else Fails(d, ps[i].name) && var u := Next(d, Fail(ps[i].name));
              var rest := Trace(live, NextList(live, ps, others, i), works, others, i + 1);
              u.chain.providers == d.chain.providers && Legal(u, rest) && all == After(u, rest)
  {
    var rest := if works(ps[i]) then [] else Trace(live, NextList(live, ps, others, i), works, others, i + 1);
    var ending, now := Ending(ps[i], works), During(others, i);
    var end := [ending] + rest;
    assert ending == if works(ps[i]) then Succeed(ps[i].name) else Fail(ps[i].name);
    assert Trace(live, ps, works, others, i) == [Attempt(ps[i].name)] + (now + end);
    hide *;
    LegalFirst(s, Attempt(ps[i].name), now + end);
    NextGrows(s, Attempt(ps[i].name));
    var t := Next(s, Attempt(ps[i].name));
    LegalSplit(t, now, end);
    LegalFirst(After(t, now), ending, rest);
    NextGrows(After(t, now), ending);
    AfterNone(Next(After(t, now), ending));
    StepsOfACall(s, ps[i].name);
    StepsOfACall(After(t, now), ps[i].name);
  }

  lemma TraceNone(s: System, live: bool, ps: seq<Provider>, works: Works, others: Others, i: nat)
    requires Tracked(s) && i >= |ps|
    ensures Trace(live, ps, works, others, i) == [] && Legal(s, []) && After(s, []) == s
  {
  }

  lemma TryEachStep(c: Chain, ps: seq<Provider>, i: nat, works: Works)
    requires Known(c) && i < |ps| && forall p <- ps :: p.name in c.health
    ensures Known(Attempted(c, ps[i].name)) && Attempted(c, ps[i].name).health == c.health
    ensures var f := Failed(Attempted(c, ps[i].name), ps[i].name); Known(f) && f.health.Keys == c.health.Keys
    ensures var d := Attempted(c, ps[i].name);
      TryEach(c, ps[i..], works)
      == if works(ps[i]) then (Succeeded(d, ps[i].name), Answered(ps[i]))
         else TryEach(Failed(d, ps[i].name), ps[i + 1..], works)
  {
    assert ps[i..][1..] == ps[i + 1..];
  }

  /** Undisturbed, the run of a call is the sequential call, and leaves nothing of its own in flight. */
  lemma {:induction false} UndisturbedTrace(s: System, live: bool, ps: seq<Provider>, works: Works, i: nat)
    requires Tracked(s) && i <= |ps| && forall p <- ps :: p.name in s.chain.health
    ensures Legal(s, Trace(live, ps, works, [], i))
    ensures After(s, Trace(live, ps, works, [], i)) == s.(chain := TryEach(s.chain, ps[i..], works).0)
    decreases |ps| - i
  {
    hide Next, Enabled, Attempted, Succeeded, Failed, Known, NextList;
    if i < |ps| {
      var name, end := ps[i].name, Ending(ps[i], works);
      UndisturbedRound(s, name, end);
      TryEachStep(s.chain, ps, i, works);
      var t := Next(s, Attempt(name));
      var u := Next(t, end);
      if !works(ps[i]) {
        UndisturbedTrace(u, live, ps, works, i + 1);
      }
      var rest := if works(ps[i]) then [] else Trace(live, ps, works, [], i + 1);
      assert During([], i) + ([end] + rest) == [end] + rest;
      assert Trace(live, ps, works, [], i) == [Attempt(name)] + ([end] + rest);
      LegalFirst(t, end, rest);
      LegalFirst(s, Attempt(name), [end] + rest);
    }
  }

  lemma UndisturbedRound(s: System, name: string, end: Event)
    requires Tracked(s) && name in s.chain.health && (end == Succeed(name) || end == Fail(name))
    ensures Enabled(s, Attempt(name)) && Enabled(Next(s, Attempt(name)), end)
    ensures var d := Attempted(s.chain, name);
      Next(Next(s, Attempt(name)), end)
        == System(if end.Succeed? then Succeeded(d, name) else Failed(d, name), s.inFlight)
  {
    assert Bump(s.inFlight, name)[name := s.inFlight[name]] == s.inFlight;
    hide AfterFailure;
  }

  /** In sequential use the interleaved run of a call gives the state and the answer of `Executed`. */
  lemma UndisturbedCall(s: System, works: Works)
    requires Tracked(s)
    ensures Legal(s, Trace(AllOpen(s.chain), ToTry(s.chain), works, [], 0))
    ensures var t := After(s, Trace(AllOpen(s.chain), ToTry(s.chain), works, [], 0));
      t == s.(chain := Executed(s.chain, works).0) && Answer(s.chain, works, []) == Executed(s.chain, works).1
  {
    var ps := ToTry(s.chain);
    UndisturbedTrace(s, AllOpen(s.chain), ps, works, 0);
    assert ps[0..] == ps;
    TryEachReply(s.chain, ps, works);
    AnswerIsFirst(s.chain, works, []);
    hide TryEach, Trace, FirstWorking, Answer, AllOpen;
  }
}
