/** The post-rollback gate (health-check-gate.ts): injected checks, latency, and the lineage of executed steps. */
module HealthGate {
  import opened Strings

  datatype StepName = StateStoreStep | DatabaseStep | CacheStep | ConfigStep | FeatureFlagStep | UnknownStep

  datatype LogEntry = LogEntry(name: StepName, success: bool)

  const EXPECTED_STEPS := [StateStoreStep, DatabaseStep, CacheStep, ConfigStep, FeatureFlagStep]

  const LATENCY_THRESHOLD_MS := 10000

  /** The verdicts of the injected validators (None when not injected) and the time the checks took. */
  datatype Gate = Gate(stateStore: Option<bool>, database: Option<bool>, config: Option<bool>, flags: Option<bool>,
                       lineage: Option<bool>, latencyMs: int)

  function LineageFrom(log: seq<LogEntry>, i: nat): bool
    requires i <= |EXPECTED_STEPS|
    decreases |EXPECTED_STEPS| - i
  {
    if i == |EXPECTED_STEPS| then true
    else if i >= |log| || log[i].name != EXPECTED_STEPS[i] then false
    else if !log[i].success then false
    else LineageFrom(log, i + 1)
  }

  predicate LineageComplete(g: Gate, log: seq<LogEntry>) {
    if g.lineage.Some? then g.lineage.value else LineageFrom(log, 0)
  }

  /** Missing store validators pass; missing config and flag validators fail. */
  predicate Passes(g: Gate, log: seq<LogEntry>) {
    && g.stateStore.GetOr(true) && g.database.GetOr(true)
    && g.config.GetOr(false) && g.flags.GetOr(false)
    && LineageComplete(g, log)
    && g.latencyMs <= LATENCY_THRESHOLD_MS
  }

  lemma {:induction false} LineageFromMeaning(log: seq<LogEntry>, i: nat)
    requires i <= |EXPECTED_STEPS|
    ensures LineageFrom(log, i) <==>
            (i < |EXPECTED_STEPS| ==> |EXPECTED_STEPS| <= |log|)
            && forall j :: i <= j < |EXPECTED_STEPS| ==> j < |log| && log[j] == LogEntry(EXPECTED_STEPS[j], true)
    decreases |EXPECTED_STEPS| - i
  {
    if i < |EXPECTED_STEPS| {
      LineageFromMeaning(log, i + 1);
    }
  }

  /** Without an injected lineage validator the gate lets through exactly the logs whose first five steps are the
      expected ones, in order, all successful; later steps are not looked at. */
  lemma GateLineage(g: Gate, log: seq<LogEntry>)
    requires g.lineage.None?
    ensures Passes(g, log) ==> |log| >= 5 && forall j :: 0 <= j < 5 ==> log[j] == LogEntry(EXPECTED_STEPS[j], true)
    ensures |log| >= 5 && (forall j :: 0 <= j < 5 ==> log[j] == LogEntry(EXPECTED_STEPS[j], true)) ==>
      (Passes(g, log) <==> g.stateStore.GetOr(true) && g.database.GetOr(true) && g.config == Some(true)
                           && g.flags == Some(true) && g.latencyMs <= LATENCY_THRESHOLD_MS)
  {
    LineageFromMeaning(log, 0);
  }
}
