/** `RollbackExecutor` (rollback-executor.ts): restores each target in the given order, checks the order of config
    and flag steps, and asks the gate. */
module RollbackExecutor {
  import opened Strings
  import opened TargetOrder
  import opened RollbackStores
  import opened HealthGate

  // ----- one step, on values ---------------------------------------------

  /** Whether a target can be restored; it depends on the recorded versions only, which no step changes. `ok` is
      what the injected handler answers for the two other kinds. */
  predicate Restorable(s: Stores, t: Target, ok: bool) {
    match t.kind
    case StateKey => VersionOf(s.history, t.resource, t.version).Some?
    case Database => SnapshotKey(t.resource) in s.snapshots
    case CacheEntry => CacheHas(s.versions, t.resource, t.version)
    case Config => ok
    case FeatureFlag => ok
  }

  function Restore(s: Stores, t: Target, ok: bool): Stores {
    if !Restorable(s, t, ok) then s
    else
      match t.kind
      case StateKey => s.(data := s.data[t.resource := VersionOf(s.history, t.resource, t.version).value])
      case Database => s.(tables := s.tables[t.resource := s.snapshots[SnapshotKey(t.resource)]])
      case CacheEntry => s.(cache := s.cache[t.resource := At(s.versions[t.resource], t.version)])
      case Config => s
      case FeatureFlag => s
  }

  /** Handler answers by step number; a handler that throws answers false. */
  type Handlers = nat -> bool

  function RestoreAll(s: Stores, ts: seq<Target>, h: Handlers): Stores {
    if ts == [] then s else Restore(RestoreAll(s, ts[..|ts| - 1], h), ts[|ts| - 1], h(|ts| - 1))
  }

  function Successes(s: Stores, ts: seq<Target>, h: Handlers): (oks: seq<bool>)
    ensures |oks| == |ts| && forall i :: 0 <= i < |ts| ==> oks[i] == Restorable(s, ts[i], h(i))
  {
    seq(|ts|, i requires 0 <= i < |ts| => Restorable(s, ts[i], h(i)))
  }

  // ----- the result ------------------------------------------------------

  datatype StepRecord = StepRecord(targetId: string, success: bool)

  datatype Overall = Success | PartialFailure | CompleteFailure

  datatype Outcome = OrderingViolation | GateFailed | Finished(overall: Overall, steps: seq<StepRecord>)

  predicate AllOf(bs: seq<bool>) {
    forall b <- bs :: b
  }

  predicate AnyOf(bs: seq<bool>) {
    exists b <- bs :: b
  }

  function OverallOf(oks: seq<bool>): Overall {
    if AllOf(oks) then Success else if AnyOf(oks) then PartialFailure else CompleteFailure
  }

  function FindKind(ts: seq<Target>, id: string): Option<TargetKind> {
    var found := Find(ts, id);
    if found == [] then None else Some(found[0].kind)
  }

  /** `executedSteps.findIndex(...)`, -1 when there is none. */
  function FirstOfKind(ts: seq<Target>, steps: seq<StepRecord>, kind: TargetKind, from: nat): int
    requires from <= |steps|
    decreases |steps| - from
  {
    if from == |steps| then -1
    else if FindKind(ts, steps[from].targetId) == Some(kind) then from
    else FirstOfKind(ts, steps, kind, from + 1)
  }

  predicate OutOfOrder(ts: seq<Target>, steps: seq<StepRecord>) {
    var config, flag := FirstOfKind(ts, steps, Config, 0), FirstOfKind(ts, steps, FeatureFlag, 0);
    config != -1 && flag != -1 && config > flag
  }

  function StepNameOf(kind: Option<TargetKind>): StepName {
    match kind
    case Some(StateKey) => StateStoreStep
    case Some(Database) => DatabaseStep
    case Some(CacheEntry) => CacheStep
    case Some(Config) => ConfigStep
    case Some(FeatureFlag) => FeatureFlagStep
    case None => UnknownStep
  }

  function LogOf(ts: seq<Target>, steps: seq<StepRecord>): (log: seq<LogEntry>)
    ensures |log| == |steps|
    ensures forall i :: 0 <= i < |log| ==>
      log[i] == LogEntry(StepNameOf(FindKind(ts, steps[i].targetId)), steps[i].success)
  {
    seq(|steps|, i requires 0 <= i < |steps| =>
      LogEntry(StepNameOf(FindKind(ts, steps[i].targetId)), steps[i].success))
  }

  function Conclude(ts: seq<Target>, steps: seq<StepRecord>, oks: seq<bool>, gate: Option<Gate>): Outcome {
    if OutOfOrder(ts, steps) then OrderingViolation
    else if gate.Some? && !Passes(gate.value, LogOf(ts, steps)) then GateFailed
    else Finished(OverallOf(oks), steps)
  }

  function StepsOf(ts: seq<Target>, oks: seq<bool>): (steps: seq<StepRecord>)
    requires |oks| == |ts|
    ensures |steps| == |ts| && forall i :: 0 <= i < |ts| ==> steps[i] == StepRecord(ts[i].id, oks[i])
  {
    seq(|ts|, i requires 0 <= i < |ts| => StepRecord(ts[i].id, oks[i]))
  }

  // ----- what a run ends with, by its targets alone -----------------------

  lemma {:induction false} OwnKind(ts: seq<Target>, i: nat)
    requires Distinct(TargetIds(ts)) && i < |ts|
    ensures FindKind(ts, ts[i].id) == Some(ts[i].kind)
  {
    if i > 0 {
      assert TargetIds(ts)[0] != TargetIds(ts)[i];
      assert TargetIds(ts[1..]) == TargetIds(ts)[1..];
      OwnKind(ts[1..], i - 1);
    }
  }

  lemma {:induction false} FirstOfKindMeaning(ts: seq<Target>, steps: seq<StepRecord>, kind: TargetKind, from: nat)
    requires from <= |steps|
    ensures var i := FirstOfKind(ts, steps, kind, from);
      && (i == -1 || (from <= i < |steps| && FindKind(ts, steps[i].targetId) == Some(kind)))
      && (forall j :: from <= j < |steps| && (i == -1 || j < i) ==> FindKind(ts, steps[j].targetId) != Some(kind))
    decreases |steps| - from
  {
    if from < |steps| {
      FirstOfKindMeaning(ts, steps, kind, from + 1);
    }
  }

  /** Some config target exists, and a flag target stands before the first one. */
  ghost predicate FlagBeforeConfig(ts: seq<Target>) {
    exists i, j :: 0 <= i < j < |ts| && ts[i].kind == FeatureFlag && ts[j].kind == Config
                   && forall k :: 0 <= k < j ==> ts[k].kind != Config
  }

  lemma FirstTarget(ts: seq<Target>, steps: seq<StepRecord>, kind: TargetKind)
    requires Distinct(TargetIds(ts)) && |steps| == |ts|
    requires forall i :: 0 <= i < |ts| ==> steps[i].targetId == ts[i].id
    ensures var i := FirstOfKind(ts, steps, kind, 0);
      && -1 <= i < |ts| && (i >= 0 ==> ts[i].kind == kind)
      && forall j :: 0 <= j < |ts| && (i == -1 || j < i) ==> ts[j].kind != kind
  {
    FirstOfKindMeaning(ts, steps, kind, 0);
    forall i | 0 <= i < |ts| ensures FindKind(ts, steps[i].targetId) == Some(ts[i].kind) {
      OwnKind(ts, i);
    }
    hide FindKind, FirstOfKind, TargetIds, Distinct;
  }

  /** The order is violated exactly when a flag target stands before the first config target. */
  lemma OrderViolated(ts: seq<Target>, steps: seq<StepRecord>)
    requires Distinct(TargetIds(ts)) && |steps| == |ts|
    requires forall i :: 0 <= i < |ts| ==> steps[i].targetId == ts[i].id
    ensures OutOfOrder(ts, steps) <==> FlagBeforeConfig(ts)
  {
    FirstTarget(ts, steps, Config);
    FirstTarget(ts, steps, FeatureFlag);
    hide FirstOfKind, TargetIds, Distinct;
    var config, flag := FirstOfKind(ts, steps, Config, 0), FirstOfKind(ts, steps, FeatureFlag, 0);
    if 0 <= flag < config {
      assert ts[flag].kind == FeatureFlag && ts[config].kind == Config;
    }
  }

  /** The report holds all steps: a success if none failed, a complete failure if all of one or more did. */
  ghost predicate Reports(outcome: Outcome, steps: seq<StepRecord>)
    requires outcome.Finished?
  {
    && outcome.steps == steps
    && (outcome.overall == Success <==> forall s <- steps :: s.success)
    && (outcome.overall == CompleteFailure <==> steps != [] && forall s <- steps :: !s.success)
  }

  lemma OverallReports(ts: seq<Target>, oks: seq<bool>)
    requires |oks| == |ts|
    ensures Reports(Finished(OverallOf(oks), StepsOf(ts, oks)), StepsOf(ts, oks))
  {
    var steps := StepsOf(ts, oks);
    forall i | 0 <= i < |ts| ensures oks[i] in oks && steps[i] in steps {}
    if steps != [] && forall s <- steps :: !s.success {
      assert !oks[0];
    }
  }

  lemma ConcludeMeans(ts: seq<Target>, s: Stores, h: Handlers, gate: Option<Gate>)
    ensures var oks := Successes(s, ts, h); var out := Conclude(ts, StepsOf(ts, oks), oks, gate);
      && (Distinct(TargetIds(ts)) ==> (out.OrderingViolation? <==> FlagBeforeConfig(ts)))
      && (out.Finished? ==> Reports(out, StepsOf(ts, oks)))
  {
    var oks := Successes(s, ts, h);
    var steps := StepsOf(ts, oks);
    OverallReports(ts, oks);
    if Distinct(TargetIds(ts)) {
      OrderViolated(ts, steps);
    }
    hide OutOfOrder, FlagBeforeConfig, Reports, OverallOf, Passes, LogOf, StepsOf, Successes;
  }

  // ----- the executor ----------------------------------------------------

  class Executor {
    const stateStore: StateStore
    const database: DatabaseRollback
    const cache: CacheRollback
    const gate: Option<Gate>
    var executedSteps: seq<StepRecord>

    constructor (gate: Option<Gate>)
      ensures this.gate == gate && executedSteps == []
      ensures fresh(stateStore) && fresh(database) && fresh(cache)
      ensures View() == Stores(map[], map[], map[], map[], map[], map[])
    {
      var s := new StateStore();
      var d := new DatabaseRollback();
      var c := new CacheRollback();
      stateStore, database, cache := s, d, c;
      this.gate := gate;
      executedSteps := [];
    }

    ghost function View(): Stores
      reads stateStore, database, cache
    {
      Stores(stateStore.data, stateStore.history, cache.cache, cache.versions, database.db, database.snapshots)
    }

    method ExecuteStep(target: Target, ok: bool) returns (step: StepRecord)
      modifies stateStore, database, cache
      ensures step == StepRecord(target.id, Restorable(old(View()), target, ok))
      ensures View() == Restore(old(View()), target, ok)
    {
      var success: bool;
      match target.kind {
        case StateKey => success := stateStore.Rollback(target.resource, target.version);
        case Database => success := database.RollbackToSnapshot(target.resource);
        case CacheEntry => success := cache.Rollback(target.resource, target.version);
        case Config => success := ok;
        case FeatureFlag => success := ok;
      }
      step := StepRecord(target.id, success);
    }

    method ExecuteRollback(targets: seq<Target>, handlers: Handlers) returns (outcome: Outcome)
      modifies this, stateStore, database, cache
      ensures View() == RestoreAll(old(View()), targets, handlers)
      ensures executedSteps == StepsOf(targets, Successes(old(View()), targets, handlers))
      ensures outcome == Conclude(targets, executedSteps, Successes(old(View()), targets, handlers), gate)
      ensures Distinct(TargetIds(targets)) ==> (outcome.OrderingViolation? <==> FlagBeforeConfig(targets))
      ensures outcome.Finished? ==> Reports(outcome, executedSteps)
    {
      executedSteps := [];
      ghost var before := View();
      ghost var oks := Successes(before, targets, handlers);
      ghost var steps := StepsOf(targets, oks);
      var statuses: seq<bool> := [];
      NothingRestored(before, targets, handlers);
      hide Restore, Restorable, View, RestoreAll, Successes, StepsOf;
      for i := 0 to |targets|
        invariant View() == RestoreAll(before, targets[..i], handlers)
        invariant statuses == oks[..i] && executedSteps == steps[..i]
      {
        NextRestored(before, targets, handlers, i);
        var step := ExecuteStep(targets[i], handlers(i));
        executedSteps := executedSteps + [step];
        statuses := statuses + [step.success];
      }
      assert targets[..|targets|] == targets && oks[..|oks|] == oks && steps[..|steps|] == steps;
      ConcludeMeans(targets, before, handlers, gate);
      hide Passes, OutOfOrder, OverallOf, LogOf, FlagBeforeConfig, Reports, TargetIds;
      if OutOfOrder(targets, executedSteps) {
        return OrderingViolation;
      }
      if gate.Some? && !Passes(gate.value, LogOf(targets, executedSteps)) {
        return GateFailed;
      }
      return Finished(OverallOf(statuses), executedSteps);
    }
  }

  lemma NothingRestored(s: Stores, ts: seq<Target>, h: Handlers)
    ensures RestoreAll(s, ts[..0], h) == s
  {
  }

  /** What the loop does with target `i`. */
  lemma {:induction false} NextRestored(s: Stores, ts: seq<Target>, h: Handlers, i: nat)
    requires i < |ts|
    ensures var t, oks := RestoreAll(s, ts[..i], h), Successes(s, ts, h);
      && RestoreAll(s, ts[..i + 1], h) == Restore(t, ts[i], h(i))
      && oks[..i + 1] == oks[..i] + [Restorable(t, ts[i], h(i))]
      && StepsOf(ts, oks)[..i + 1] == StepsOf(ts, oks)[..i] + [StepRecord(ts[i].id, Restorable(t, ts[i], h(i)))]
  {
    assert ts[..i + 1][..i] == ts[..i];
    SameRecords(s, ts[..i], h);
    SameRestorable(s, RestoreAll(s, ts[..i], h), ts[i], h(i));
    hide Restore, Restorable;
  }

  // ----- what a run restores ---------------------------------------------

  ghost predicate SameVersions(s: Stores, t: Stores) {
    s.history == t.history && s.versions == t.versions && s.snapshots == t.snapshots
  }

  /** No step changes the recorded versions. */
  lemma {:induction false} SameRecords(s: Stores, ts: seq<Target>, h: Handlers)
    ensures SameVersions(s, RestoreAll(s, ts, h))
  {
    if ts != [] {
      SameRecords(s, ts[..|ts| - 1], h);
    }
  }

  lemma SameRestorable(s: Stores, t: Stores, target: Target, ok: bool)
    requires SameVersions(s, t)
    ensures Restorable(s, target, ok) == Restorable(t, target, ok)
  {
  }

  /** A failed step leaves everything as it was; a successful one changes its own resource only. */
  lemma StepsAreLocal(s: Stores, t: Target, ok: bool)
    ensures var u := Restore(s, t, ok);
      && (!Restorable(s, t, ok) ==> u == s)
      && (forall k :: t.kind != StateKey || k != t.resource ==> Holds(s, u, StateKey, k))
      && (forall k :: t.kind != CacheEntry || k != t.resource ==> Holds(s, u, CacheEntry, k))
      && (forall k :: t.kind != Database || k != t.resource ==> Holds(s, u, Database, k))
  {
  }

  /** The named resource is the same in both. */
  ghost predicate Holds(s: Stores, u: Stores, kind: TargetKind, k: string) {
    match kind
    case StateKey => (k in s.data <==> k in u.data) && (k in s.data ==> s.data[k] == u.data[k])
    case CacheEntry => (k in s.cache <==> k in u.cache) && (k in s.cache ==> s.cache[k] == u.cache[k])
    case Database => (k in s.tables <==> k in u.tables) && (k in s.tables ==> s.tables[k] == u.tables[k])
    case _ => true
  }

  /** The resource holds what the target asks for: the recorded version, or the table's snapshot. */
  ghost predicate HoldsVersion(s: Stores, u: Stores, t: Target) {
    match t.kind
    case StateKey => t.resource in u.data && VersionOf(s.history, t.resource, t.version) == Some(u.data[t.resource])
    case CacheEntry =>
      && t.resource in u.cache && t.resource in s.versions && u.cache[t.resource].Some?
      && u.cache[t.resource] == At(s.versions[t.resource], t.version)
    case Database =>
      && t.resource in u.tables && SnapshotKey(t.resource) in s.snapshots
      && u.tables[t.resource] == s.snapshots[SnapshotKey(t.resource)]
    case _ => true
  }

  /** Only a cache target may have a version that is no number and be restorable all the same. */
  predicate Numbered(t: Target) {
    t.kind == CacheEntry ==> t.version.Some?
  }

  ghost predicate HoldsUndefined(u: Stores, key: string) {
    key in u.cache && u.cache[key] == None
  }

  ghost predicate SameResource(t: Target, u: Target) {
    t.kind == u.kind && t.resource == u.resource
  }

  /** The last restorable target of a resource decides what it holds: what it asks for, or `undefined` in the cache when
      its version is no number. */
  lemma {:induction false} LastRestoreWins(s: Stores, ts: seq<Target>, h: Handlers, i: nat)
    requires i < |ts| && Restorable(s, ts[i], h(i))
    requires forall j :: i < j < |ts| && SameResource(ts[i], ts[j]) ==> !Restorable(s, ts[j], h(j))
    ensures HoldsVersion(s, RestoreAll(s, ts, h), ts[i]) <==> Numbered(ts[i])
    ensures Numbered(ts[i]) || HoldsUndefined(RestoreAll(s, ts, h), ts[i].resource)
  {
    var n := |ts| - 1;
    var before := RestoreAll(s, ts[..n], h);
    SameRecords(s, ts[..n], h);
    SameRestorable(s, before, ts[n], h(n));
    if i < n {
      LastRestoreWins(s, ts[..n], h, i);
      StepsAreLocal(before, ts[n], h(n));
      assert Holds(before, RestoreAll(s, ts, h), ts[i].kind, ts[i].resource);
    }
  }

  /** A resource with no restorable target is untouched. */
  lemma {:induction false} UntouchedStays(s: Stores, ts: seq<Target>, h: Handlers, kind: TargetKind, k: string)
    requires forall i :: 0 <= i < |ts| && ts[i].kind == kind && ts[i].resource == k ==> !Restorable(s, ts[i], h(i))
    ensures Holds(s, RestoreAll(s, ts, h), kind, k)
  {
    if ts != [] {
      var n := |ts| - 1;
      var before := RestoreAll(s, ts[..n], h);
      UntouchedStays(s, ts[..n], h, kind, k);
      SameRecords(s, ts[..n], h);
      SameRestorable(s, before, ts[n], h(n));
      StepsAreLocal(before, ts[n], h(n));
    }
  }

  /** After a run that ends in `success`, over targets of distinct resources, a resource is at its recorded version or
      snapshot exactly when its target is not a cache target whose version is no number; such a key holds `undefined`.
      So all of them are restored exactly when every cache target's version is a number. */
  lemma SuccessRestoresAll(s: Stores, ts: seq<Target>, h: Handlers)
    requires OverallOf(Successes(s, ts, h)) == Success
    requires forall i, j :: 0 <= i < j < |ts| ==> !SameResource(ts[i], ts[j])
    ensures var u := RestoreAll(s, ts, h);
      && (forall i :: 0 <= i < |ts| ==>
            if Numbered(ts[i]) then HoldsVersion(s, u, ts[i]) else HoldsUndefined(u, ts[i].resource))
      && ((forall i :: 0 <= i < |ts| ==> HoldsVersion(s, u, ts[i])) <==> forall t <- ts :: Numbered(t))
  {
    var u := RestoreAll(s, ts, h);
    forall i | 0 <= i < |ts|
      ensures HoldsVersion(s, u, ts[i]) <==> Numbered(ts[i])
      ensures Numbered(ts[i]) || HoldsUndefined(u, ts[i].resource)
    {
      assert Successes(s, ts, h)[i] in Successes(s, ts, h);
      LastRestoreWins(s, ts, h, i);
    }
    hide RestoreAll, HoldsVersion, Numbered, HoldsUndefined, SameResource, Successes;
  }

  /** What it takes for a step to succeed: a recorded version that is not falsy, a snapshot, a recorded cache key with
      any version or none, or a handler that agrees. */
  lemma RestorableMeans(s: Stores, t: Target, ok: bool)
    ensures Restorable(s, t, ok) <==>
      match t.kind
      case StateKey =>
        && t.resource in s.history && t.version.Some? && 0 <= t.version.value < |s.history[t.resource]|
        && !s.history[t.resource][t.version.value].falsy
      case Database => t.resource + ":snapshot" in s.snapshots
      case CacheEntry =>
        && t.resource in s.versions
        && (t.version.None? || 0 <= t.version.value < |s.versions[t.resource]|)
      case Config => ok
      case FeatureFlag => ok
  {
  }

  /** A recorded version of a state key can be restored exactly when its value is not falsy. */
  lemma FalsyVersionFails(s: Stores, t: Target, ok: bool)
    requires t.kind == StateKey && t.resource in s.history
    requires t.version.Some? && 0 <= t.version.value < |s.history[t.resource]|
    ensures Restorable(s, t, ok) <==> !s.history[t.resource][t.version.value].falsy
    ensures Restore(s, t, ok) == s || Restore(s, t, ok).data[t.resource] == s.history[t.resource][t.version.value]
  {
  }

  /** A successful cache step leaves a recorded value exactly when its version is a number. */
  lemma CacheVersionRecorded(s: Stores, t: Target, ok: bool)
    requires t.kind == CacheEntry && Restorable(s, t, ok)
    ensures Restore(s, t, ok).cache[t.resource].Some? <==> t.version.Some?
    ensures t.version.Some? ==> Restore(s, t, ok).cache[t.resource] == Some(s.versions[t.resource][t.version.value])
  {
  }

  /** The overall status: all steps, some, or none. */
  lemma OverallMeaning(s: Stores, ts: seq<Target>, h: Handlers)
    ensures var o := OverallOf(Successes(s, ts, h));
      && (o == Success <==> forall i :: 0 <= i < |ts| ==> Restorable(s, ts[i], h(i)))
      && (o == CompleteFailure <==> ts != [] && forall i :: 0 <= i < |ts| ==> !Restorable(s, ts[i], h(i)))
  {
    var oks := Successes(s, ts, h);
    forall i | 0 <= i < |ts| ensures oks[i] in oks {}
    if ts != [] && forall i :: 0 <= i < |ts| ==> !Restorable(s, ts[i], h(i)) {
      assert !oks[0];
    }
  }

  // ----- the executor behind a gate --------------------------------------

  /** The checks of a gate besides the lineage: the stores' checks pass or are missing, those of the config and of the
      flags are there and pass, and the reported latency is at most ten seconds. */
  predicate ChecksPass(g: Gate) {
    && g.stateStore != Some(false) && g.database != Some(false)
    && g.config == Some(true) && g.flags == Some(true) && g.latencyMs <= 10000
  }

  /** The first five targets are a state key, a table, a cache entry, the config and the flags, in this order, and all
      five succeeded; what follows is not looked at. */
  predicate FirstFiveRestored(s: Stores, ts: seq<Target>, h: Handlers) {
    && |ts| >= 5 && (forall i :: 0 <= i < 5 ==> Restorable(s, ts[i], h(i)))
    && ts[0].kind == StateKey && ts[1].kind == Database && ts[2].kind == CacheEntry && ts[3].kind == Config
    && ts[4].kind == FeatureFlag
  }

  /** Behind a gate `executeRollback` returns normally exactly when the gate's checks pass and, if a lineage validator
      is injected, it agrees and no flag target stands before the first config target; if none is, the first five
      targets are the expected ones and restored. It fails at the gate exactly when only the order is right. */
  lemma {:induction false} GatedRunReturns(s: Stores, ts: seq<Target>, h: Handlers, g: Gate)
    requires Distinct(TargetIds(ts))
    ensures var oks := Successes(s, ts, h); var out := Conclude(ts, StepsOf(ts, oks), oks, Some(g));
      && (out.Finished? <==> && ChecksPass(g)
                             && if g.lineage == None then FirstFiveRestored(s, ts, h)
                                else g.lineage == Some(true) && !FlagBeforeConfig(ts))
      && (out.GateFailed? <==> !out.Finished? && !FlagBeforeConfig(ts))
  {
    var oks := Successes(s, ts, h);
    var steps := StepsOf(ts, oks);
    var log := LogOf(ts, steps);
    LogKinds(s, ts, h);
    OrderViolated(ts, steps);
    GateMeans(g, log);
    LineageFromMeaning(log, 0);
    hide Restorable, Passes, OutOfOrder, LogOf, StepNameOf, FlagBeforeConfig, Find, TargetIds, LineageFrom, ChecksPass;
    FiveSteps(s, ts, h, log);
    if FirstFiveRestored(s, ts, h) {
      ExpectedFirst(ts);
    }
    hide FirstFiveRestored;
  }

  lemma GateMeans(g: Gate, log: seq<LogEntry>)
    ensures Passes(g, log)
      <==> ChecksPass(g) && if g.lineage == None then LineageFrom(log, 0) else g.lineage == Some(true)
  {
    hide LineageFrom;
  }

  lemma FiveSteps(s: Stores, ts: seq<Target>, h: Handlers, log: seq<LogEntry>)
    requires |log| == |ts|
    requires forall i :: 0 <= i < |ts| ==> log[i] == LogEntry(StepNameOf(Some(ts[i].kind)), Restorable(s, ts[i], h(i)))
    ensures FirstFiveRestored(s, ts, h)
      <==> |log| >= 5 && forall j :: 0 <= j < 5 ==> log[j] == LogEntry(EXPECTED_STEPS[j], true)
  {
    hide Restorable;
  }

  lemma ExpectedFirst(ts: seq<Target>)
    requires |ts| >= 5 && ts[3].kind == Config
    requires ts[0].kind != FeatureFlag && ts[1].kind != FeatureFlag && ts[2].kind != FeatureFlag
    ensures !FlagBeforeConfig(ts)
  {
  }

  lemma LogKinds(s: Stores, ts: seq<Target>, h: Handlers)
    requires Distinct(TargetIds(ts))
    ensures var log := LogOf(ts, StepsOf(ts, Successes(s, ts, h)));
      forall i :: 0 <= i < |ts| ==> log[i] == LogEntry(StepNameOf(Some(ts[i].kind)), Restorable(s, ts[i], h(i)))
  {
    hide Restorable;
    hide StepNameOf;
    forall i | 0 <= i < |ts| ensures FindKind(ts, ts[i].id) == Some(ts[i].kind) {
      OwnKind(ts, i);
    }
  }
}
