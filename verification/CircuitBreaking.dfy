/** Circuit breaker (circuitBreaker.ts). A call is two atomic steps, its admission and its completion; the reset
    timer firing is a third. */
module CircuitBreaking {
  datatype State = Closed | Open | HalfOpen

  datatype Breaker = Breaker(failureThreshold: int, rateThreshold: real, state: State, consecutive: nat,
                             total: nat, failures: nat, successes: nat, timer: bool)

  function FreshBreaker(failureThreshold: int, rateThreshold: real): Breaker {
    Breaker(failureThreshold, rateThreshold, Closed, 0, 0, 0, 0, false)
  }

  /** The opening condition. The rate is over the whole lifetime of the breaker. */
  predicate Trips(b: Breaker) {
    || b.consecutive >= b.failureThreshold
    || (b.total > 0 && b.failures as real / b.total as real >= b.rateThreshold)
  }

  function Succeeded(b: Breaker): Breaker {
    var c := b.(consecutive := 0, successes := b.successes + 1, total := b.total + 1);
    if b.state == HalfOpen then c.(state := Closed, timer := false) else c
  }

  function Failed(b: Breaker): Breaker {
    var c := b.(consecutive := b.consecutive + 1, failures := b.failures + 1, total := b.total + 1);
    if Trips(c) then c.(state := Open, timer := true) else c
  }

  function Fired(b: Breaker): Breaker {
    b.(state := HalfOpen, timer := false)
  }

  datatype Reply = Refused | Returned | Threw

  /** A call from its admission to its completion with nothing in between. */
  function Called(b: Breaker, works: bool): Breaker {
    if b.state == Open then b else if works then Succeeded(b) else Failed(b)
  }

  class CircuitBreaker {
    const failureThreshold: int
    const failureRateThreshold: real
    var state: State
    var consecutiveFailures: nat
    var totalRequests: nat
    var failureCount: nat
    var successCount: nat
    var timerArmed: bool

    function Value(): Breaker
      reads this
    {
      Breaker(failureThreshold, failureRateThreshold, state, consecutiveFailures, totalRequests, failureCount,
              successCount, timerArmed)
    }

    constructor (failureThreshold: int, failureRateThreshold: real)
      ensures Value() == FreshBreaker(failureThreshold, failureRateThreshold)
    {
      this.failureThreshold, this.failureRateThreshold := failureThreshold, failureRateThreshold;
      state, consecutiveFailures, totalRequests := Closed, 0, 0;
      failureCount, successCount, timerArmed := 0, 0, false;
    }

    method RecordSuccess()
      modifies this
      ensures Value() == Succeeded(old(Value()))
    {
      consecutiveFailures := 0;
      successCount := successCount + 1;
      totalRequests := totalRequests + 1;
      if state == HalfOpen {
        state := Closed;
        ClearResetTimer();
      }
    }

    method RecordFailure()
      modifies this
      ensures Value() == Failed(old(Value()))
    {
      consecutiveFailures := consecutiveFailures + 1;
      failureCount := failureCount + 1;
      totalRequests := totalRequests + 1;
      var failureRate := failureCount as real / totalRequests as real;
      if consecutiveFailures >= failureThreshold || failureRate >= failureRateThreshold {
        state := Open;
        ScheduleReset();
      }
    }

    method ScheduleReset()
      modifies this`timerArmed
      ensures timerArmed
    {
      if timerArmed {
        timerArmed := false;
      }
      timerArmed := true;
    }

    method ClearResetTimer()
      modifies this`timerArmed
      ensures !timerArmed
    {
      if timerArmed {
        timerArmed := false;
      }
    }

    /** The callback of the reset timer. */
    method FireTimer()
      requires timerArmed
      modifies this
      ensures Value() == Fired(old(Value()))
    {
      state := HalfOpen;
      timerArmed := false;
    }

    /** What runs between the admission of an awaited call and its completion: admissions and completions of other
        calls, and the timer. */
    method RunOthers(others: seq<Event>, ghost inFlight: nat)
      requires Legal(System(Value(), inFlight), others)
      modifies this
      ensures Value() == After(System(old(Value()), inFlight), others).breaker
    {
      ghost var s := System(Value(), inFlight);
      var i := 0;
      while i < |others|
        invariant 0 <= i <= |others| && s.breaker == Value() && Legal(s, others[i..])
        invariant After(s, others[i..]) == After(System(old(Value()), inFlight), others)
      {
        s := Next(s, others[i]);
        assert others[i..][1..] == others[i + 1..];
        match others[i] {
          case Start =>
          case Succeed => RecordSuccess();
          case Fail => RecordFailure();
          case Fire => FireTimer();
        }
        i := i + 1;
      }
    }

    /** `works` is how the protected function ends, `others` what happens while it is awaited, with `inFlight` other
        calls in flight at the start. Only the state at admission refuses a call, only that at completion is updated. */
    method Execute(works: bool, others: seq<Event>, ghost inFlight: nat) returns (reply: Reply)
      requires state != Open ==> Legal(System(Value(), inFlight + 1), others)
      modifies this
      ensures reply == if old(state) == Open then Refused else if works then Returned else Threw
      ensures old(state) == Open ==> Value() == old(Value())
      ensures old(state) != Open ==>
        var b := After(System(old(Value()), inFlight + 1), others).breaker;
        Value() == if works then Succeeded(b) else Failed(b)
    {
      if state == Open {
        return Refused;
      }
      RunOthers(others, inFlight + 1);
      if works {
        RecordSuccess();
        return Returned;
      }
      RecordFailure();
      return Threw;
    }
  }

  // ----- every interleaving ----------------------------------------------

  datatype Event = Start | Succeed | Fail | Fire

  datatype System = System(breaker: Breaker, inFlight: nat)

  /** A completion needs a call in flight, a firing an armed timer. */
  predicate Enabled(s: System, e: Event) {
    match e
    case Start => true
    case Succeed => s.inFlight > 0
    case Fail => s.inFlight > 0
    case Fire => s.breaker.timer
  }

  function Next(s: System, e: Event): System
    requires Enabled(s, e)
  {
    match e
    case Start => if s.breaker.state == Open then s else s.(inFlight := s.inFlight + 1)
    case Succeed => System(Succeeded(s.breaker), s.inFlight - 1)
    case Fail => System(Failed(s.breaker), s.inFlight - 1)
    case Fire => s.(breaker := Fired(s.breaker))
  }

  predicate Legal(s: System, es: seq<Event>)
    decreases |es|
  {
    es == [] || (Enabled(s, es[0]) && Legal(Next(s, es[0]), es[1..]))
  }

  function After(s: System, es: seq<Event>): System
    requires Legal(s, es)
    decreases |es|
  {
    if es == [] then s else After(Next(s, es[0]), es[1..])
  }

  predicate Consistent(b: Breaker) {
    && (b.state == Open <==> b.timer)
    && b.total == b.successes + b.failures && b.consecutive <= b.failures
  }

  /** In every interleaving the breaker is OPEN exactly while its reset timer is armed, so it never stays OPEN for
      want of a timer, and every completed call is counted once. */
  lemma {:induction false} OpenIffArmed(s: System, es: seq<Event>)
    requires Consistent(s.breaker) && Legal(s, es)
    ensures Consistent(After(s, es).breaker)
    decreases |es|
  {
    if es != [] {
      OpenIffArmed(Next(s, es[0]), es[1..]);
    }
  }

  /** The failures since the last success, `start` if there was neither. */
  function Trailing(es: seq<Event>, start: nat): nat
    decreases |es|
  {
    if es == [] then start
    else if es[0].Succeed? then Trailing(es[1..], 0)
    else if es[0].Fail? then Trailing(es[1..], start + 1)
    else Trailing(es[1..], start)
  }

  function Count(es: seq<Event>, e: Event): nat {
    if es == [] then 0 else (if es[0] == e then 1 else 0) + Count(es[1..], e)
  }

  /** The counters are those of the whole history: all successes, all failures, and the failures since the last
      success, whatever states the breaker went through. */
  lemma {:induction false} CountersAreHistory(s: System, es: seq<Event>)
    requires Legal(s, es)
    ensures var b := After(s, es).breaker;
      && b.successes == s.breaker.successes + Count(es, Succeed) && b.failures == s.breaker.failures + Count(es, Fail)
      && b.consecutive == Trailing(es, s.breaker.consecutive)
    decreases |es|
  {
    if es != [] {
      CountersAreHistory(Next(s, es[0]), es[1..]);
    }
    hide Trips;
  }

  // ----- sequential use --------------------------------------------------

  /** A run in which no call starts while another is in flight. */
  predicate Sequential(s: System, es: seq<Event>)
    requires Legal(s, es)
    decreases |es|
  {
    es == [] || ((es[0] == Start ==> s.inFlight == 0) && Sequential(Next(s, es[0]), es[1..]))
  }

  /** Once open, what opened it still holds, until a success closes it. */
  ghost predicate StillTripped(s: System) {
    && Consistent(s.breaker)
    && s.inFlight <= 1 && (s.breaker.state == Open ==> s.inFlight == 0)
    && (s.breaker.state != Closed ==> Trips(s.breaker))
  }

  lemma MulStrict(p: real, q: real, y: real)
    requires p < q && y > 0.0
    ensures p * y < q * y
  {
  }

  lemma AtMostQuotient(q: real, x: real, y: real)
    requires y > 0.0 && q * y <= x
    ensures q <= x / y
  {
    var p := x / y;
    assert p * y == x;
    if p < q {
      MulStrict(p, q, y);
    }
  }

  lemma QuotientAtMost(q: real, x: real, y: real)
    requires y > 0.0 && x <= q * y
    ensures x / y <= q
  {
    var p := x / y;
    assert p * y == x;
    if q < p {
      MulStrict(q, p, y);
    }
  }

  /** (f+1)/(n+1) >= f/n when f <= n. */
  lemma RateGrows(f: nat, n: nat)
    requires 0 < n && f <= n
    ensures (f + 1) as real / (n + 1) as real >= f as real / n as real
  {
    var x, y := f as real, n as real;
    var q := x / y;
    assert q * y == x;
    assert q <= 1.0 by {
      if 1.0 < q {
        MulStrict(1.0, q, y);
      }
    }
    assert q * (y + 1.0) == q * y + q;
    AtMostQuotient(q, x + 1.0, y + 1.0);
    assert (f + 1) as real == x + 1.0 && (n + 1) as real == y + 1.0;
  }

  /** The opening condition survives one more failure. */
  lemma FailureKeepsTripped(b: Breaker)
    requires Trips(b) && b.failures <= b.total
    ensures Failed(b).state == Open && Trips(Failed(b))
  {
    if b.total > 0 {
      RateGrows(b.failures, b.total);
    }
  }

  lemma {:induction false} SequentialKeepsTripped(s: System, es: seq<Event>)
    requires StillTripped(s) && Legal(s, es) && Sequential(s, es)
    ensures StillTripped(After(s, es))
    decreases |es|
  {
    if es != [] {
      if es[0] == Fail && s.breaker.state == HalfOpen {
        FailureKeepsTripped(s.breaker);
      }
      SequentialKeepsTripped(Next(s, es[0]), es[1..]);
    }
  }

  /** In sequential use a trial that fails in HALF_OPEN always reopens the breaker and arms its timer. */
  lemma FailedTrialReopens(failureThreshold: int, rateThreshold: real, es: seq<Event>)
    requires var s := System(FreshBreaker(failureThreshold, rateThreshold), 0);
      Legal(s, es) && Sequential(s, es) && After(s, es).breaker.state == HalfOpen
    ensures var s := System(FreshBreaker(failureThreshold, rateThreshold), 0);
      var b := Failed(After(s, es).breaker);
      b.state == Open && b.timer
  {
    var s := System(FreshBreaker(failureThreshold, rateThreshold), 0);
    SequentialKeepsTripped(s, es);
    FailureKeepsTripped(After(s, es).breaker);
  }

  /** When a failure opens a breaker that is not OPEN, a trial in HALF_OPEN included, after any interleaving: exactly
      when, counting this one, the failures since the last success reach the threshold or the failures of the whole
      history reach the rate. */
  lemma {:induction false} FailureOpensIff(failureThreshold: int, rateThreshold: real, es: seq<Event>)
    requires var s := System(FreshBreaker(failureThreshold, rateThreshold), 0);
      Legal(s, es) && After(s, es).breaker.state != Open
    ensures var s := System(FreshBreaker(failureThreshold, rateThreshold), 0);
      var failed := Count(es, Fail) + 1;
      Failed(After(s, es).breaker).state == Open <==>
        || Trailing(es, 0) + 1 >= failureThreshold
        || failed as real / (failed + Count(es, Succeed)) as real >= rateThreshold
  {
    var s := System(FreshBreaker(failureThreshold, rateThreshold), 0);
    CountersAreHistory(s, es);
    OpenIffArmed(s, es);
    ThresholdsStay(s, es);
  }

  lemma {:induction false} ThresholdsStay(s: System, es: seq<Event>)
    requires Legal(s, es)
    ensures After(s, es).breaker.failureThreshold == s.breaker.failureThreshold
    ensures After(s, es).breaker.rateThreshold == s.breaker.rateThreshold
    decreases |es|
  {
    if es != [] {
      ThresholdsStay(Next(s, es[0]), es[1..]);
    }
    hide Trips;
  }

  lemma TwoInFive(b: Breaker)
    requires b == Breaker(5, 0.5, HalfOpen, 0, 4, 1, 3, false)
    ensures Failed(b) == Breaker(5, 0.5, HalfOpen, 1, 5, 2, 3, false)
  {
    assert 2 as real / 5 as real < 0.5;
  }

  /** A run of the default breaker whose failed trial leaves it HALF_OPEN with no timer armed: calls admitted before it
      opened succeed while it is open, and the failure of the trial then reaches neither threshold. */
  lemma {:induction false} OverlappingTrialMayStayHalfOpen()
    ensures var s := System(FreshBreaker(5, 0.5), 0);
      var es := [Start, Start, Start, Start, Fail, Succeed, Succeed, Succeed, Fire, Start];
      Legal(s, es) && After(s, es).breaker.state == HalfOpen
      && Failed(After(s, es).breaker).state == HalfOpen && !Failed(After(s, es).breaker).timer
  {
    var s := System(FreshBreaker(5, 0.5), 0);
    var es := [Start, Start, Start, Start, Fail, Succeed, Succeed, Succeed, Fire, Start];
    var path := [s, s.(inFlight := 1), s.(inFlight := 2), s.(inFlight := 3), s.(inFlight := 4),
                 System(Breaker(5, 0.5, Open, 1, 1, 1, 0, true), 3), System(Breaker(5, 0.5, Open, 0, 2, 1, 1, true), 2),
                 System(Breaker(5, 0.5, Open, 0, 3, 1, 2, true), 1), System(Breaker(5, 0.5, Open, 0, 4, 1, 3, true), 0),
                 System(Breaker(5, 0.5, HalfOpen, 0, 4, 1, 3, false), 0),
                 System(Breaker(5, 0.5, HalfOpen, 0, 4, 1, 3, false), 1)];
    hide Failed, Legal, After;
    FailureByRate(path[4].breaker);
    TwoInFive(path[10].breaker);
    assert Next(path[0], Start) == path[1] && Next(path[1], Start) == path[2];
    assert Next(path[2], Start) == path[3] && Next(path[3], Start) == path[4];
    assert Next(path[4], Fail) == path[5] && Next(path[5], Succeed) == path[6];
    assert Next(path[6], Succeed) == path[7] && Next(path[7], Succeed) == path[8];
    assert Next(path[8], Fire) == path[9] && Next(path[9], Start) == path[10];
    hide Next;
    FollowPath(path, es, 0);
    assert es[0..] == es;
  }

  /** With a rate threshold above 1 only the consecutive failures count. */
  lemma FailureByCount(b: Breaker)
    requires b.rateThreshold > 1.0 && b.failures <= b.total
    ensures var c := b.(consecutive := b.consecutive + 1, failures := b.failures + 1, total := b.total + 1);
      Failed(b) == if c.consecutive >= c.failureThreshold then c.(state := Open, timer := true) else c
  {
    QuotientAtMost(1.0, (b.failures + 1) as real, (b.total + 1) as real);
  }

  /** As long as every call has failed, a rate threshold of at most 1 is always reached. */
  lemma FailureByRate(b: Breaker)
    requires b.rateThreshold <= 1.0 && b.failures == b.total
    ensures Failed(b) == b.(consecutive := b.consecutive + 1, failures := b.failures + 1, total := b.total + 1,
                            state := Open, timer := true)
  {
    assert (b.total + 1) as real / (b.total + 1) as real == 1.0;
  }

  lemma {:induction false} FollowPath(path: seq<System>, es: seq<Event>, i: nat)
    requires |path| == |es| + 1 && i <= |es|
    requires forall j :: 0 <= j < |es| ==> Enabled(path[j], es[j]) && Next(path[j], es[j]) == path[j + 1]
    ensures Legal(path[i], es[i..]) && After(path[i], es[i..]) == path[|es|]
    decreases |es| - i
  {
    if i < |es| {
      FollowPath(path, es, i + 1);
      assert es[i..][1..] == es[i + 1..];
      hide Enabled, Next;
    }
  }

  // ----- when a fresh breaker opens --------------------------------------

  function FailTimes(b: Breaker, n: nat): Breaker {
    if n == 0 then b else Failed(FailTimes(b, n - 1))
  }

  /** Failures from the start: the rate is 1 at once, so with a rate threshold of at most 1 (the default is 0.5) the
      first failure opens the breaker whatever the threshold on consecutive failures says. */
  lemma {:induction false} OpensAfterFailures(failureThreshold: int, rateThreshold: real, n: nat)
    requires n > 0
    ensures var b := FailTimes(FreshBreaker(failureThreshold, rateThreshold), n);
      && b.consecutive == n && b.total == n && b.failures == n && b.failureThreshold == failureThreshold
      && b.rateThreshold == rateThreshold
      && (b.state == Open <==> n >= failureThreshold || rateThreshold <= 1.0)
      && (b.state != Open ==> b.state == Closed)
  {
    var b := FailTimes(FreshBreaker(failureThreshold, rateThreshold), n - 1);
    if n > 1 {
      OpensAfterFailures(failureThreshold, rateThreshold, n - 1);
    }
    if rateThreshold <= 1.0 {
      FailureByRate(b);
    } else {
      FailureByCount(b);
    }
    hide Failed;
  }
}
