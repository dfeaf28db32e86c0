/** `buildPlan` (writePlan.ts): findings and a person document become an ordered list of write operations. */
module WritePlan {
  import opened Strings
  import opened Gedcomx
  import opened OpKeys
  import opened WriteFindings

  datatype Body =
    | SourceBody(about: Option<string>, title: string, note: string)
    | AttachBody(description: string, tags: seq<string>)
    | NoteBody(personId: string, subject: string, text: string)
    | NameBody(personId: string, fullText: string)
    | FactBody(personId: string, factType: string, date: Option<string>, place: Option<string>)

  datatype Op = Op(id: string, opType: OpType, findingIds: seq<string>, dependsOn: Option<string>,
                   existingId: Option<string>, body: Body)

  function Fingerprint(op: Op): string {
    OpKey(op.opType, op.findingIds)
  }

  datatype SkipReason = DescriptionPresent | AlreadyAttached | ConclusionPresent | NotePresent
                      | ConclusionsDisabled | SameConclusionPlanned | UniqueConclusionPlanned

  datatype Skip = Skip(findingId: string, opType: OpType, reason: SkipReason)

  datatype Drop = Drop(findingId: string, reason: Reason)

  datatype Plan = Plan(pid: string, operations: seq<Op>, skipped: seq<Skip>, dropped: seq<Drop>)

  datatype Options = Options(allowConclusions: bool, minConfidence: real, nowYear: int,
                             existingSources: map<string, string>)

  /** `buildPlan` throws on a malformed declared description id. */
  datatype Outcome = Planned(plan: Plan) | BadDeclaredId(sourceId: string)

  /** Everything the two planning loops read. */
  datatype Ctx = Ctx(rules: Rules, pid: string, doc: Document, person: Person, opts: Options)

  // ----- markers and note text -------------------------------------------

  function Marker(f: Finding): string {
    "[TRM:" + FindingId(f) + "]"
  }

  function SourceMarker(f: Finding): string {
    "[TRM-SOURCE:" + f.sourceId + "]"
  }

  function KindLabel(k: Kind): string {
    match k
    case NameVariant => "Name variant"
    case Birth => "Birth"
    case Death => "Death"
    case Marriage => "Marriage"
    case Residence => "Residence"
    case Relationship => "Relationship"
  }

  function Line(heading: string, t: Option<string>): string {
    if Truthy(t) then heading + t.value + "\n" else ""
  }

  function NoteText(f: Finding, status: Status): string {
    KindLabel(f.kind) + ": " + f.value + "\n"
    + Line("Date: ", f.date) + Line("Place: ", f.place)
    + "Source: " + f.sourceTitle + (if Truthy(f.sourceUrl) then " (" + f.sourceUrl.value + ")" else "") + "\n"
    + (if status == Conflict then "Differs from the existing conclusion; offered for review, not applied.\n" else "")
    + f.note + "\n" + Marker(f)
  }

  // ----- accepted findings -----------------------------------------------

  datatype Intake = Intake(accepted: seq<Finding>, dropped: seq<Drop>, seen: set<string>)

  function IntakeStep(r: Rules, minConfidence: real, s: Intake, raw: RawFinding): Intake {
    var id := SafeFindingId(raw);
    var own := FindingProblem(r, raw, minConfidence);
    var problem := if own.Some? then own else if id in s.seen then Some(DuplicateId) else None;
    var seen := s.seen + {id};
    if problem.Some? then Intake(s.accepted, s.dropped + [Drop(id, problem.value)], seen)
    else Intake(s.accepted + [ToFinding(r, raw, minConfidence)], s.dropped, seen)
  }

  function TakeIn(r: Rules, minConfidence: real, raws: seq<RawFinding>): Intake {
    if raws == [] then Intake([], [], {})
    else IntakeStep(r, minConfidence, TakeIn(r, minConfidence, raws[..|raws| - 1]), raws[|raws| - 1])
  }

  // ----- groups by source ------------------------------------------------

  /** An entry of the insertion-ordered `bySource` map. */
  datatype Group = Group(key: string, members: seq<Finding>)

  function SourceKey(f: Finding): string {
    f.sourceId + ['|'] + f.sourceUrl.GetOr("")
  }

  function AddToGroups(gs: seq<Group>, f: Finding): seq<Group> {
    if gs == [] then [Group(SourceKey(f), [f])]
    else if gs[0].key == SourceKey(f) then [Group(gs[0].key, gs[0].members + [f])] + gs[1..]
    else [gs[0]] + AddToGroups(gs[1..], f)
  }

  function GroupsOf(fs: seq<Finding>): seq<Group> {
    if fs == [] then [] else AddToGroups(GroupsOf(fs[..|fs| - 1]), fs[|fs| - 1])
  }

  function Ids(fs: seq<Finding>): (ids: seq<string>)
    ensures |ids| == |fs|
  {
    if fs == [] then [] else [FindingId(fs[0])] + Ids(fs[1..])
  }

  // ----- source descriptions and attachments -----------------------------

  predicate Letter(c: char) {
    'A' <= c <= 'Z' || 'a' <= c <= 'z' || '0' <= c <= '9'
  }

  /** `/^[A-Za-z0-9][A-Za-z0-9-]{2,30}$/` */
  predicate ValidDescriptionId(id: string) {
    3 <= |id| <= 31 && Letter(id[0]) && forall c <- id :: Letter(c) || c == '-'
  }

  function Declared(c: Ctx, g: Group): Option<string>
    requires g.members != []
  {
    var source := g.members[0].sourceId;
    if source in c.opts.existingSources then Some(c.opts.existingSources[source]) else None
  }

  predicate BadDeclaration(c: Ctx, g: Group)
    requires g.members != []
  {
    Declared(c, g).Some? && !ValidDescriptionId(Declared(c, g).value)
  }

  predicate Describes(r: Rules, d: Description, about: Option<string>, marker: string, title: string) {
    || (about.Some? && d.about == about)
    || (exists n <- d.notes :: n.Some? && Contains(n.value, marker))
    || (r.norm(title) != "" && exists t <- d.titles :: Norm(r, t) == r.norm(title))
  }

  predicate DescribesGroup(r: Rules, d: Description, g: Group)
    requires g.members != []
  {
    var first := g.members[0];
    Describes(r, d, first.sourceUrl, SourceMarker(first), first.sourceTitle)
  }

  function FindDescription(r: Rules, ds: seq<Description>, g: Group): Option<Description>
    requires g.members != []
  {
    if ds == [] then None
    else if DescribesGroup(r, ds[0], g) then Some(ds[0])
    else FindDescription(r, ds[1..], g)
  }

  function ExistingId(c: Ctx, g: Group): Option<string>
    requires g.members != []
  {
    if Declared(c, g).Some? then Declared(c, g)
    else
      var found := FindDescription(c.rules, c.doc.descriptions, g);
      if found.Some? then found.value.id else None
  }

  function AttachedIds(sources: seq<SourceRef>): set<string> {
    if sources == [] then {}
    else
      var s := sources[|sources| - 1];
      AttachedIds(sources[..|sources| - 1])
        + {DescriptionIdOf(if s.description.Some? then s.description else s.descriptionId)}
  }

  predicate NeedsCreate(c: Ctx, g: Group)
    requires g.members != []
  {
    !Truthy(ExistingId(c, g))
  }

  predicate NeedsAttach(c: Ctx, g: Group)
    requires g.members != []
  {
    NeedsCreate(c, g) || ExistingId(c, g).value !in AttachedIds(c.person.sources)
  }

  function JoinedNotes(fs: seq<Finding>): string {
    if |fs| == 0 then ""
    else if |fs| == 1 then fs[0].note
    else fs[0].note + "\n" + JoinedNotes(fs[1..])
  }

  function CreateOp(c: Ctx, g: Group): Op
    requires g.members != []
  {
    var first := g.members[0];
    var about := if Truthy(first.sourceUrl) then first.sourceUrl else None;
    Op(OpKey(CreateSource, Ids(g.members)), CreateSource, Ids(g.members), None, None,
       SourceBody(about, first.sourceTitle, SourceMarker(first) + " " + JoinedNotes(g.members)))
  }

  /** Tags name only the conclusion types the source supports, each once. */
  function Tags(c: Ctx, fs: seq<Finding>): seq<string> {
    if fs == [] then []
    else
      var tags := Tags(c, fs[..|fs| - 1]);
      var f := fs[|fs| - 1];
      var s := FactStatus(c.rules, c.person, f);
      var t := FactTypeOf(f.kind);
      if (s == Present || (s == Absent && c.opts.allowConclusions)) && t.Some? && t.value !in tags
      then tags + [t.value] else tags
  }

  const OP_REF := "@op:"
  const SD_REF := "@sd:"

  function AttachOp(c: Ctx, g: Group): Op
    requires g.members != []
  {
    var createId := OpKey(CreateSource, Ids(g.members));
    var existing := ExistingId(c, g);
    var description := if NeedsCreate(c, g) then OP_REF + createId else SD_REF + existing.value;
    Op(OpKey(AttachSource, Ids(g.members)), AttachSource, Ids(g.members),
       if NeedsCreate(c, g) then Some(createId) else None, existing,
       AttachBody(description, Tags(c, g.members)))
  }

  datatype SourcePass = SourcePass(creates: seq<Op>, attaches: seq<Op>, skipped: seq<Skip>)

  function SourceStep(c: Ctx, s: SourcePass, g: Group): SourcePass
    requires g.members != []
  {
    var first := FindingId(g.members[0]);
    var creates := if NeedsCreate(c, g) then s.creates + [CreateOp(c, g)] else s.creates;
    var skips1 := if NeedsCreate(c, g) then s.skipped
                  else s.skipped + [Skip(first, CreateSource, DescriptionPresent)];
    if NeedsAttach(c, g) then SourcePass(creates, s.attaches + [AttachOp(c, g)], skips1)
    else SourcePass(creates, s.attaches, skips1 + [Skip(first, AttachSource, AlreadyAttached)])
  }

  ghost predicate Inhabited(gs: seq<Group>) {
    forall g <- gs :: g.members != []
  }

  function PlanSources(c: Ctx, gs: seq<Group>): SourcePass
    requires Inhabited(gs)
  {
    if gs == [] then SourcePass([], [], [])
    else SourceStep(c, PlanSources(c, gs[..|gs| - 1]), gs[|gs| - 1])
  }

  // ----- notes and conclusions -------------------------------------------

  predicate NotePresentFor(c: Ctx, f: Finding) {
    exists n <- c.person.notes :: Contains(n.GetOr(""), Marker(f))
  }

  function NoteOp(c: Ctx, f: Finding): Op {
    var id := FindingId(f);
    Op(OpKey(AddNote, [id]), AddNote, [id], None, None,
       NoteBody(c.pid, "TRM research: " + KindLabel(f.kind), NoteText(f, FactStatus(c.rules, c.person, f))))
  }

  function ConclusionKey(r: Rules, f: Finding): string {
    var day := DayOf(r, f.date);
    KindName(f.kind) + "|" + r.norm(f.value) + "|" + (if day.Some? then day.value else Norm(r, f.date)) + "|"
    + Norm(r, f.place)
  }

  function ConclusionType(f: Finding): OpType {
    if f.kind == NameVariant then AddName else AddFact
  }

  function ConclusionOp(c: Ctx, f: Finding): Option<Op> {
    var id := FindingId(f);
    if f.kind == NameVariant then
      Some(Op(OpKey(AddName, [id]), AddName, [id], None, None, NameBody(c.pid, f.value)))
    else if FactTypeOf(f.kind).None? then None
    else
      Some(Op(OpKey(AddFact, [id]), AddFact, [id], None, None,
              FactBody(c.pid, FactTypeOf(f.kind).value, if Truthy(f.date) then f.date else None,
                       if Truthy(f.place) then f.place else None)))
  }

  datatype FindingPass = FindingPass(notes: seq<Op>, facts: seq<Op>, skipped: seq<Skip>, seen: set<string>,
                                     unique: set<Kind>)

  function NoteStep(c: Ctx, s: FindingPass, f: Finding): FindingPass {
    if NotePresentFor(c, f) then s.(skipped := s.skipped + [Skip(FindingId(f), AddNote, NotePresent)])
    else s.(notes := s.notes + [NoteOp(c, f)])
  }

  function ConclusionStep(c: Ctx, s: FindingPass, f: Finding): FindingPass {
    var id := FindingId(f);
    var key := ConclusionKey(c.rules, f);
    if !c.opts.allowConclusions then
      s.(skipped := s.skipped + [Skip(id, ConclusionType(f), ConclusionsDisabled)])
    else if key in s.seen then
      s.(skipped := s.skipped + [Skip(id, ConclusionType(f), SameConclusionPlanned)])
    else if IsUnique(f.kind) && f.kind in s.unique then
      s.(skipped := s.skipped + [Skip(id, AddFact, UniqueConclusionPlanned)])
    else
      var op := ConclusionOp(c, f);
      s.(facts := if op.Some? then s.facts + [op.value] else s.facts, seen := s.seen + {key},
         unique := if IsUnique(f.kind) then s.unique + {f.kind} else s.unique)
  }

  function FindingStep(c: Ctx, s: FindingPass, f: Finding): FindingPass {
    var status := FactStatus(c.rules, c.person, f);
    if status == Present then s.(skipped := s.skipped + [Skip(FindingId(f), AddNote, ConclusionPresent)])
    else
      var noted := NoteStep(c, s, f);
      if status != Absent then noted else ConclusionStep(c, noted, f)
  }

  function PlanFindings(c: Ctx, fs: seq<Finding>): FindingPass {
    if fs == [] then FindingPass([], [], [], {}, {})
    else FindingStep(c, PlanFindings(c, fs[..|fs| - 1]), fs[|fs| - 1])
  }

  // ----- the whole plan --------------------------------------------------

  lemma {:induction false} AddedStayInhabited(gs: seq<Group>, f: Finding)
    requires Inhabited(gs)
    ensures Inhabited(AddToGroups(gs, f))
  {
    if gs != [] && gs[0].key != SourceKey(f) {
      AddedStayInhabited(gs[1..], f);
    }
  }

  lemma {:induction false} GroupsInhabited(fs: seq<Finding>)
    ensures Inhabited(GroupsOf(fs))
  {
    if fs != [] {
      GroupsInhabited(fs[..|fs| - 1]);
      AddedStayInhabited(GroupsOf(fs[..|fs| - 1]), fs[|fs| - 1]);
    }
  }

  function FirstBadDeclaration(c: Ctx, gs: seq<Group>): (bad: Option<Group>)
    requires Inhabited(gs)
    ensures bad.Some? ==> bad.value in gs && BadDeclaration(c, bad.value)
    ensures bad.None? ==> forall g <- gs :: !BadDeclaration(c, g)
  {
    if gs == [] then None
    else if BadDeclaration(c, gs[0]) then Some(gs[0])
    else FirstBadDeclaration(c, gs[1..])
  }

  function Operations(c: Ctx, accepted: seq<Finding>): seq<Op> {
    GroupsInhabited(accepted);
    var sources := PlanSources(c, GroupsOf(accepted));
    var findings := PlanFindings(c, accepted);
    sources.creates + sources.attaches + findings.notes + findings.facts
  }

  function PlanAccepted(c: Ctx, intake: Intake): Outcome {
    GroupsInhabited(intake.accepted);
    var groups := GroupsOf(intake.accepted);
    var bad := FirstBadDeclaration(c, groups);
    if bad.Some? then BadDeclaredId(bad.value.members[0].sourceId)
    else
      Planned(Plan(c.pid, Operations(c, intake.accepted),
                   PlanSources(c, groups).skipped + PlanFindings(c, intake.accepted).skipped, intake.dropped))
  }

  function DropAll(raws: seq<RawFinding>): seq<Drop> {
    seq(|raws|, i requires 0 <= i < |raws| => Drop(SafeFindingId(raws[i]), PossiblyLiving))
  }

  function PlanFor(r: Rules, pid: string, raws: seq<RawFinding>, doc: Document, opts: Options): Outcome {
    var person := FindPerson(doc.persons, pid);
    if person.None? then Planned(Plan(pid, [], [], [Drop("*", PersonMissing)]))
    else if IsPossiblyLiving(r, person.value, opts.nowYear) then Planned(Plan(pid, [], [], DropAll(raws)))
    else PlanAccepted(Ctx(r, pid, doc, person.value, opts), TakeIn(r, opts.minConfidence, raws))
  }

  // ----- the loops -------------------------------------------------------

  lemma LastStep<T>(xs: seq<T>, i: nat)
    requires i < |xs|
    ensures xs[..i + 1][..i] == xs[..i] && xs[..i + 1][i] == xs[i]
  {
  }

  method AcceptFindings(r: Rules, minConfidence: real, raws: seq<RawFinding>)
    returns (accepted: seq<Finding>, dropped: seq<Drop>)
    ensures accepted == TakeIn(r, minConfidence, raws).accepted
    ensures dropped == TakeIn(r, minConfidence, raws).dropped
  {
    accepted, dropped := [], [];
    var seen: set<string> := {};
    for i := 0 to |raws|
      invariant Intake(accepted, dropped, seen) == TakeIn(r, minConfidence, raws[..i])
    {
      var raw := raws[i];
      var problem := FindingProblem(r, raw, minConfidence);
      if problem.None? && SafeFindingId(raw) in seen {
        problem := Some(DuplicateId);
      }
      seen := seen + {SafeFindingId(raw)};
      if problem.Some? {
        dropped := dropped + [Drop(SafeFindingId(raw), problem.value)];
      } else {
        accepted := accepted + [ToFinding(r, raw, minConfidence)];
      }
      LastStep(raws, i);
    }
    assert raws[..|raws|] == raws;
  }

  method GroupBySource(accepted: seq<Finding>) returns (groups: seq<Group>)
    ensures groups == GroupsOf(accepted)
  {
    groups := [];
    for i := 0 to |accepted|
      invariant groups == GroupsOf(accepted[..i])
    {
      groups := AddToGroups(groups, accepted[i]);
      LastStep(accepted, i);
    }
    assert accepted[..|accepted|] == accepted;
  }

  method PlanSourceOps(c: Ctx, groups: seq<Group>)
    returns (bad: Option<Group>, creates: seq<Op>, attaches: seq<Op>, skipped: seq<Skip>)
    requires Inhabited(groups)
    ensures bad == FirstBadDeclaration(c, groups)
    ensures bad.None? ==> SourcePass(creates, attaches, skipped) == PlanSources(c, groups)
  {
    bad, creates, attaches, skipped := None, [], [], [];
    for i := 0 to |groups|
      invariant FirstBadDeclaration(c, groups) == FirstBadDeclaration(c, groups[i..])
      invariant SourcePass(creates, attaches, skipped) == PlanSources(c, groups[..i])
    {
      var group := groups[i];
      if BadDeclaration(c, group) {
        return Some(group), creates, attaches, skipped;
      }
      var existing := ExistingId(c, group);
      if Truthy(existing) {
        skipped := skipped + [Skip(FindingId(group.members[0]), CreateSource, DescriptionPresent)];
      } else {
        creates := creates + [CreateOp(c, group)];
      }
      if Truthy(existing) && existing.value in AttachedIds(c.person.sources) {
        skipped := skipped + [Skip(FindingId(group.members[0]), AttachSource, AlreadyAttached)];
      } else {
        attaches := attaches + [AttachOp(c, group)];
      }
      LastStep(groups, i);
    }
    assert groups[..|groups|] == groups;
  }

  method PlanFindingOps(c: Ctx, accepted: seq<Finding>)
    returns (notes: seq<Op>, facts: seq<Op>, skipped: seq<Skip>)
    ensures notes == PlanFindings(c, accepted).notes && facts == PlanFindings(c, accepted).facts
    ensures skipped == PlanFindings(c, accepted).skipped
  {
    notes, facts, skipped := [], [], [];
    var seen: set<string>, unique: set<Kind> := {}, {};
    for i := 0 to |accepted|
      invariant FindingPass(notes, facts, skipped, seen, unique) == PlanFindings(c, accepted[..i])
    {
      var f := accepted[i];
      var id, status := FindingId(f), FactStatus(c.rules, c.person, f);
      LastStep(accepted, i);
      if status == Present {
        skipped := skipped + [Skip(id, AddNote, ConclusionPresent)];
        continue;
      }
      if NotePresentFor(c, f) {
        skipped := skipped + [Skip(id, AddNote, NotePresent)];
      } else {
        notes := notes + [NoteOp(c, f)];
      }
      if status != Absent {
        continue;
      }
      if !c.opts.allowConclusions {
        skipped := skipped + [Skip(id, ConclusionType(f), ConclusionsDisabled)];
        continue;
      }
      var key := ConclusionKey(c.rules, f);
      if key in seen {
        skipped := skipped + [Skip(id, ConclusionType(f), SameConclusionPlanned)];
        continue;
      }
      if IsUnique(f.kind) && f.kind in unique {
        skipped := skipped + [Skip(id, AddFact, UniqueConclusionPlanned)];
        continue;
      }
      seen := seen + {key};
      if IsUnique(f.kind) {
        unique := unique + {f.kind};
      }
      var op := ConclusionOp(c, f);
      if op.Some? {
        facts := facts + [op.value];
      }
    }
    assert accepted[..|accepted|] == accepted;
  }

  method BuildPlan(r: Rules, pid: string, raws: seq<RawFinding>, doc: Document, opts: Options)
    returns (outcome: Outcome)
    ensures outcome == PlanFor(r, pid, raws, doc, opts)
  {
    var found := FindPerson(doc.persons, pid);
    if found.None? {
      return Planned(Plan(pid, [], [], [Drop("*", PersonMissing)]));
    }
    if IsPossiblyLiving(r, found.value, opts.nowYear) {
      return Planned(Plan(pid, [], [], DropAll(raws)));
    }
    var c := Ctx(r, pid, doc, found.value, opts);
    var accepted, dropped := AcceptFindings(r, opts.minConfidence, raws);
    var groups := GroupBySource(accepted);
    GroupsInhabited(accepted);
    var bad, creates, attaches, skips1 := PlanSourceOps(c, groups);
    if bad.Some? {
      return BadDeclaredId(bad.value.members[0].sourceId);
    }
    var notes, facts, skips2 := PlanFindingOps(c, accepted);
    return Planned(Plan(pid, creates + attaches + notes + facts, skips1 + skips2, dropped));
  }
}
