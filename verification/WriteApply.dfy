/** `applyPlan` (writeApply.ts): re-plan against the current state, then run the operations that were reviewed and are
    still produced, one confirmed POST at a time. */
module WriteApply {
  import opened Strings
  import opened Gedcomx
  import opened OpKeys
  import opened WriteFindings
  import opened WritePlan

  // ----- the outside world -----------------------------------------------

  datatype Confirmation = Approves | Declines | Throws

  /** A POST is answered, or fails with its effect unknown (`applied`). */
  datatype Response = Accepted(location: Option<string>, entityId: Option<string>) | Rejected(applied: bool)

  /** What surrounds the i-th operation: who confirms, the server, and how long things take. The clock never
      runs backwards and a sleep is never short; otherwise the delays are arbitrary. */
  datatype World = World(confirm: nat -> Confirmation, respond: nat -> Response, thinking: nat -> nat,
                         oversleep: nat -> nat, latency: nat -> nat)

  // ----- gates -----------------------------------------------------------

  datatype Refusal = ConfirmMissing | ProductionRefused | NotBeta | UnknownEnv | SourcesUnverified

  /** `env` is the trimmed, lower-cased FAMILYSEARCH_ENV. */
  datatype Gate = Gate(confirm: bool, hasCallback: bool, env: Option<string>, optedIn: bool, production: bool,
                       sourcesVerified: bool)

  function WritesRefused(g: Gate): Option<Refusal> {
    if g.production && !g.optedIn then Some(ProductionRefused)
    else if g.env != Some("beta") && !g.optedIn then Some(NotBeta)
    else if Truthy(g.env) && g.env != Some("beta") && g.env != Some("production") then Some(UnknownEnv)
    else None
  }

  predicate CreatesSource(plan: Plan) {
    exists op <- plan.operations :: op.opType == CreateSource
  }

  function GateRefusal(plan: Plan, g: Gate): Option<Refusal> {
    if !g.confirm || !g.hasCallback then Some(ConfirmMissing)
    else if WritesRefused(g).Some? then WritesRefused(g)
    else if CreatesSource(plan) && !g.sourcesVerified then Some(SourcesUnverified)
    else None
  }

  /** What it takes to write: a confirmation and the callback, the opt-in for production and for any environment but
      beta, no unknown environment, and verified sources if the plan creates one. */
  predicate MayWrite(plan: Plan, g: Gate) {
    && g.confirm && g.hasCallback && (g.optedIn || (!g.production && g.env == Some("beta")))
    && g.env in {None, Some(""), Some("beta"), Some("production")}
    && (g.sourcesVerified || forall op <- plan.operations :: op.opType != CreateSource)
  }

  /** Why a call is refused, if it is: the first of the checks that fails. */
  ghost predicate RefusedFor(plan: Plan, g: Gate, why: Refusal) {
    match why
    case ConfirmMissing => !g.confirm || !g.hasCallback
    case ProductionRefused => g.confirm && g.hasCallback && g.production && !g.optedIn
    case NotBeta => g.confirm && g.hasCallback && !g.production && !g.optedIn && g.env != Some("beta")
    case UnknownEnv =>
      && g.confirm && g.hasCallback && g.optedIn
      && g.env.Some? && g.env.value != "" && g.env.value != "beta" && g.env.value != "production"
    case SourcesUnverified =>
      && g.confirm && g.hasCallback && (g.optedIn || (!g.production && g.env == Some("beta")))
      && g.env in {None, Some(""), Some("beta"), Some("production")}
      && !g.sourcesVerified && exists op <- plan.operations :: op.opType == CreateSource
  }

  /** Writes are refused exactly when something is missing, and then for the first thing that is. */
  lemma RefusalMeans(plan: Plan, g: Gate)
    ensures GateRefusal(plan, g) == None <==> MayWrite(plan, g)
    ensures forall why :: GateRefusal(plan, g) == Some(why) <==> RefusedFor(plan, g, why)
  {
    assert "beta"[0] != "production"[0];
  }

  // ----- references ------------------------------------------------------

  /** The JSON reviver of `resolveRefs`; None stands for its exception. */
  function ResolveText(s: string, created: map<string, string>, host: string, existing: Option<string>): Option<string>
  {
    if StartsWith(s, OP_REF) then
      if s[|OP_REF|..] in created && created[s[|OP_REF|..]] != "" then Some(created[s[|OP_REF|..]]) else None
    else if StartsWith(s, SD_REF) then Some(DescriptionUrl(host, existing.GetOr(s[|SD_REF|..])))
    else Some(s)
  }

  function ResolveOptional(t: Option<string>, created: map<string, string>, host: string, existing: Option<string>)
    : Option<Option<string>>
  {
    if t.None? then Some(None)
    else
      var r := ResolveText(t.value, created, host, existing);
      if r.None? then None else Some(r)
  }

  function ResolveAll(ts: seq<string>, created: map<string, string>, host: string, existing: Option<string>)
    : Option<seq<string>>
  {
    if ts == [] then Some([])
    else
      var head := ResolveText(ts[0], created, host, existing);
      var tail := ResolveAll(ts[1..], created, host, existing);
      if head.None? || tail.None? then None else Some([head.value] + tail.value)
  }

  function ResolveRefs(body: Body, created: map<string, string>, host: string, existing: Option<string>): Option<Body> {
    match body
    case SourceBody(about, title, note) =>
      var a := ResolveOptional(about, created, host, existing);
      var t := ResolveText(title, created, host, existing);
      var n := ResolveText(note, created, host, existing);
      if a.None? || t.None? || n.None? then None else Some(SourceBody(a.value, t.value, n.value))
    case AttachBody(description, tags) =>
      var d := ResolveText(description, created, host, existing);
      var ts := ResolveAll(tags, created, host, existing);
      if d.None? || ts.None? then None else Some(AttachBody(d.value, ts.value))
    case NoteBody(id, subject, text) =>
      var i := ResolveText(id, created, host, existing);
      var s := ResolveText(subject, created, host, existing);
      var t := ResolveText(text, created, host, existing);
      if i.None? || s.None? || t.None? then None else Some(NoteBody(i.value, s.value, t.value))
    case NameBody(id, fullText) =>
      var i := ResolveText(id, created, host, existing);
      var t := ResolveText(fullText, created, host, existing);
      if i.None? || t.None? then None else Some(NameBody(i.value, t.value))
    case FactBody(id, factType, date, place) =>
      var i := ResolveText(id, created, host, existing);
      var f := ResolveText(factType, created, host, existing);
      var d := ResolveOptional(date, created, host, existing);
      var p := ResolveOptional(place, created, host, existing);
      if i.None? || f.None? || d.None? || p.None? then None else Some(FactBody(i.value, f.value, d.value, p.value))
  }

  // ----- one operation ---------------------------------------------------

  datatype RunStatus = Posted | AlreadyPresent | Declined | Failed | NotRun

  datatype OpResult = OpResult(opId: string, status: RunStatus, location: Option<string>, entityId: Option<string>)

  function Result(op: Op, status: RunStatus): OpResult {
    OpResult(op.id, status, None, None)
  }

  /** One call of `postGedcomx`. */
  datatype Post = Post(op: Op, body: Body, response: Response, startedAt: int, endedAt: int)

  datatype Exec = Exec(results: seq<OpResult>, created: map<string, string>, halted: bool, lastPost: int, clock: int,
                       posts: seq<Post>)

  datatype Setting = Setting(host: string, minInterval: int, world: World)

  function FindResult(results: seq<OpResult>, id: string): Option<OpResult> {
    if results == [] then None
    else if results[0].opId == id then Some(results[0])
    else FindResult(results[1..], id)
  }

  function ResponseId(location: Option<string>, entityId: Option<string>): string {
    if entityId.Some? then entityId.value else DescriptionIdOf(location)
  }

  /** When the POST may start: the reading of the clock plus the sleep it calls for. */
  function StartTime(s: Setting, x: Exec, i: nat): int {
    var checked := x.clock + s.world.thinking(i);
    var wait := x.lastPost + s.minInterval - checked;
    if x.lastPost != 0 && wait > 0 then checked + wait + s.world.oversleep(i) else checked
  }

  function PostStep(s: Setting, x: Exec, op: Op, i: nat): Exec {
    var start := StartTime(s, x, i);
    var body := ResolveRefs(op.body, x.created, s.host, op.existingId);
    if body.None? then
      x.(results := x.results + [Result(op, Failed)], halted := true, lastPost := start, clock := start)
    else
      var end := start + s.world.latency(i);
      var response := s.world.respond(i);
      var posted := x.(posts := x.posts + [Post(op, body.value, response, start, end)], lastPost := end, clock := end);
      match response
      case Rejected(_) => posted.(results := x.results + [Result(op, Failed)], halted := true)
      case Accepted(location, entityId) =>
        var id := ResponseId(location, entityId);
        posted.(results := x.results + [OpResult(op.id, Posted, location, entityId)],
                created := if op.opType == CreateSource && id != "" then x.created[op.id := DescriptionUrl(s.host, id)]
                           else x.created)
  }

  function Step(s: Setting, x: Exec, op: Op, i: nat): Exec {
    if x.halted then x.(results := x.results + [Result(op, NotRun)])
    else if Truthy(op.dependsOn) && op.dependsOn.value !in x.created then
      var dep := FindResult(x.results, op.dependsOn.value);
      x.(results := x.results + [Result(op, if dep.Some? && dep.value.status == Declined then Declined else NotRun)])
    else
      match s.world.confirm(i)
      case Throws => x.(results := x.results + [Result(op, Failed)], halted := true,
                        clock := x.clock + s.world.thinking(i))
      case Declines => x.(results := x.results + [Result(op, Declined)], clock := x.clock + s.world.thinking(i))
      case Approves => PostStep(s, x, op, i)
  }

  function Run(s: Setting, start: Exec, ops: seq<Op>): Exec {
    if ops == [] then start
    else Step(s, Run(s, start, ops[..|ops| - 1]), ops[|ops| - 1], |ops| - 1)
  }

  // ----- the whole call --------------------------------------------------

  predicate Prints(ops: seq<Op>, key: string) {
    exists op <- ops :: Fingerprint(op) == key
  }

  function StaleResults(planned: seq<Op>, current: seq<Op>): seq<OpResult> {
    if planned == [] then []
    else
      var op := planned[|planned| - 1];
      StaleResults(planned[..|planned| - 1], current)
        + (if Prints(current, Fingerprint(op)) then [] else [Result(op, AlreadyPresent)])
  }

  /** The current operations whose fingerprint was reviewed. */
  function Reviewed(current: seq<Op>, planned: seq<Op>): seq<Op> {
    if current == [] then []
    else
      var op := current[|current| - 1];
      Reviewed(current[..|current| - 1], planned) + (if Prints(planned, Fingerprint(op)) then [op] else [])
  }

  function Start(planned: seq<Op>, current: seq<Op>, clock: int): Exec {
    Exec(StaleResults(planned, current), map[], false, 0, clock, [])
  }

  function Execute(s: Setting, planned: seq<Op>, current: seq<Op>, clock: int): Exec {
    Run(s, Start(planned, current, clock), Reviewed(current, planned))
  }

  datatype ApplyOutcome = Refused(refusal: Refusal) | PlanFailed(sourceId: string)
                        | Applied(results: seq<OpResult>, posts: seq<Post>)

  method ApplyPlan(plan: Plan, gate: Gate, r: Rules, raws: seq<RawFinding>, opts: Options, doc: Document,
                   s: Setting, clock: int)
    returns (outcome: ApplyOutcome)
    ensures !outcome.Refused? <==> MayWrite(plan, gate)
    ensures outcome.Refused? ==> RefusedFor(plan, gate, outcome.refusal)
    ensures MayWrite(plan, gate) ==>
      match PlanFor(r, plan.pid, raws, doc, opts)
      case BadDeclaredId(id) => outcome == PlanFailed(id)
      case Planned(current) =>
        var x := Execute(s, plan.operations, current.operations, clock);
        outcome == Applied(x.results, x.posts)
  {
    RefusalMeans(plan, gate);
    hide MayWrite, RefusedFor, GateRefusal;
    var refusal := GateRefusal(plan, gate);
    if refusal.Some? {
      return Refused(refusal.value);
    }
    var planned := BuildPlan(r, plan.pid, raws, doc, opts);
    if planned.BadDeclaredId? {
      return PlanFailed(planned.sourceId);
    }
    var current := planned.plan.operations;
    var results := [];
    for i := 0 to |plan.operations|
      invariant results == StaleResults(plan.operations[..i], current)
    {
      LastStep(plan.operations, i);
      if !Prints(current, Fingerprint(plan.operations[i])) {
        results := results + [Result(plan.operations[i], AlreadyPresent)];
      }
    }
    assert plan.operations[..|plan.operations|] == plan.operations;
    var todo := Reviewed(current, plan.operations);
    var x := ExecuteAll(s, Start(plan.operations, current, clock), todo);
    return Applied(x.results, x.posts);
  }

  /** The tail of the loop body: wait, resolve the references, post, record. */
  method PostApproved(s: Setting, x: Exec, op: Op, i: nat) returns (y: Exec)
    ensures y == PostStep(s, x, op, i)
  {
    hide ResolveRefs;
    hide ResponseId;
    hide DescriptionUrl;
    var results, created, posts := x.results, x.created, x.posts;
    var halted, lastPost, clock := x.halted, x.lastPost, x.clock + s.world.thinking(i);
    var wait := lastPost + s.minInterval - clock;
    if lastPost != 0 && wait > 0 {
      clock := clock + wait + s.world.oversleep(i);
    }
    var body := ResolveRefs(op.body, created, s.host, op.existingId);
    if body.None? {
      lastPost, halted := clock, true;
      results := results + [Result(op, Failed)];
    } else {
      var response, started := s.world.respond(i), clock;
      clock := clock + s.world.latency(i);
      lastPost := clock;
      posts := posts + [Post(op, body.value, response, started, clock)];
      if response.Rejected? {
        halted := true;
        results := results + [Result(op, Failed)];
      } else {
        var id := ResponseId(response.location, response.entityId);
        if op.opType == CreateSource && id != "" {
          created := created[op.id := DescriptionUrl(s.host, id)];
        }
        results := results + [OpResult(op.id, Posted, response.location, response.entityId)];
      }
    }
    return Exec(results, created, halted, lastPost, clock, posts);
  }

  /** The loop over the reviewed operations. */
  method ExecuteAll(s: Setting, start: Exec, todo: seq<Op>) returns (x: Exec)
    ensures x == Run(s, start, todo)
  {
    hide PostStep;
    hide FindResult;
    x := start;
    for i := 0 to |todo|
      invariant x == Run(s, start, todo[..i])
    {
      var op := todo[i];
      LastStep(todo, i);
      if x.halted {
        x := x.(results := x.results + [Result(op, NotRun)]);
      } else if Truthy(op.dependsOn) && op.dependsOn.value !in x.created {
        var dep := FindResult(x.results, op.dependsOn.value);
        var status := if dep.Some? && dep.value.status == Declined then Declined else NotRun;
        x := x.(results := x.results + [Result(op, status)]);
      } else {
        var confirmation := s.world.confirm(i);
        if confirmation == Throws {
          x := x.(results := x.results + [Result(op, Failed)], halted := true, clock := x.clock + s.world.thinking(i));
        } else if confirmation == Declines {
          x := x.(results := x.results + [Result(op, Declined)], clock := x.clock + s.world.thinking(i));
        } else {
          x := PostApproved(s, x, op, i);
        }
      }
    }
    assert todo[..|todo|] == todo;
  }
}
