/** Planning again after a run: nothing that took hold is planned twice, and a complete run leaves nothing to do. */
module Replan {
  import opened Strings
  import opened Gedcomx
  import opened OpKeys
  import opened WriteFindings
  import opened WritePlan
  import opened PlanProperties
  import opened WriteApply
  import opened ApplyProperties
  import opened TreeServer

  // ----- what the planner can recognise later ----------------------------

  /** The description found for a group, if any, can be named: it has an id, and unless it is attached already
      the id survives being put into a URL. */
  predicate Nameable(c: Ctx, g: Group)
    requires g.members != []
  {
    || Declared(c, g).Some?
    || FindDescription(c.rules, c.doc.descriptions, g).None?
    || (Truthy(ExistingId(c, g))
        && (UrlSafe(ExistingId(c, g).value) || ExistingId(c, g).value in AttachedIds(c.person.sources)))
  }

  /** The place of the finding, if it has one, has a part that survives normalisation. */
  predicate MatchablePlace(r: Rules, f: Finding) {
    Blank(r, f.place) || Parts(r, f.place) != []
  }

  lemma DeclaredUrlSafe(id: string)
    requires ValidDescriptionId(id)
    ensures UrlSafe(id)
  {
    assert !Letter('/') && !Letter('?') && !Letter('#');
  }

  // ----- groups ----------------------------------------------------------

  /** A later context: the same call after the server has grown. */
  ghost predicate Later(srv: Server, now: Server, c: Ctx, d: Ctx) {
    && Grown(srv, now)
    && c.person == srv.person && c.doc.descriptions == srv.descriptions
    && d.person == now.person && d.doc.descriptions == now.descriptions
    && d.rules == c.rules && d.pid == c.pid && d.opts == c.opts
  }

  /** A description that is listed only since then describes the group. */
  ghost predicate NewlyDescribed(srv: Server, now: Server, c: Ctx, g: Group)
    requires g.members != []
  {
    exists i :: |srv.descriptions| <= i < |now.descriptions| && DescribesGroup(c.rules, now.descriptions[i], g)
  }

  /** A group is settled: a listed description made for it, or the id it already had, is attached. */
  ghost predicate Settled(srv: Server, now: Server, c: Ctx, g: Group)
    requires g.members != []
  {
    if NeedsCreate(c, g) then NewlyDescribed(srv, now, c, g)
    else ExistingId(c, g).value in AttachedIds(now.person.sources)
  }

  /** A settled, nameable group is planned no more. */
  lemma SettledStays(srv: Server, now: Server, c: Ctx, d: Ctx, g: Group)
    requires Later(srv, now, c, d) && g.members != [] && Nameable(c, g) && !BadDeclaration(c, g)
    requires Settled(srv, now, c, g)
    ensures !NeedsCreate(d, g) && !NeedsAttach(d, g)
  {
    FoundStaysFirst(c.rules, srv.descriptions, now.descriptions, g);
    hide DescribesGroup;
    hide AttachedIds;
    hide FindDescription;
  }

  /** A group whose description cannot be named is planned again for ever. */
  lemma UnnameableRepeats(srv: Server, now: Server, c: Ctx, d: Ctx, g: Group)
    requires Later(srv, now, c, d) && g.members != [] && !Nameable(c, g)
    requires forall id :: id in AttachedIds(now.person.sources) ==> id in AttachedIds(srv.person.sources) || UrlSafe(id)
    ensures NeedsAttach(d, g)
  {
    FoundStaysFirst(c.rules, srv.descriptions, now.descriptions, g);
    hide DescribesGroup;
    hide AttachedIds;
    hide FindDescription;
  }

  /** A group that needed a description needs one again exactly when what was found for it could not be named, or no
      newly listed description describes it. */
  lemma CreateNeededAgain(srv: Server, now: Server, c: Ctx, d: Ctx, g: Group)
    requires Later(srv, now, c, d) && g.members != [] && NeedsCreate(c, g) && !BadDeclaration(c, g)
    ensures NeedsCreate(d, g) <==> !Nameable(c, g) || !NewlyDescribed(srv, now, c, g)
  {
    FoundStaysFirst(c.rules, srv.descriptions, now.descriptions, g);
    FoundDescribes(c.rules, now.descriptions, g);
    hide DescribesGroup, AttachedIds, FindDescription;
  }

  lemma {:induction false} FoundDescribes(r: Rules, ds: seq<Description>, g: Group)
    requires g.members != []
    ensures FindDescription(r, ds, g).Some? ==> DescribesGroup(r, FindDescription(r, ds, g).value, g)
  {
    hide DescribesGroup;
    if ds != [] {
      FoundDescribes(r, ds[1..], g);
    }
  }

  // ----- conclusions -----------------------------------------------------

  ghost function PostedFact(f: Finding): Fact
    requires FactTypeOf(f.kind).Some?
  {
    Fact(FactTypeOf(f.kind), None, if Truthy(f.date) then f.date else None, if Truthy(f.place) then f.place else None)
  }

  lemma PlaceAgreesWithItself(r: Rules, f: Finding)
    requires EmptyTextRules(r)
    ensures PlaceAgrees(r, if Truthy(f.place) then f.place else None, f.place) <==> MatchablePlace(r, f)
  {
    hide Parts;
  }

  /** A fact posted for a finding matches it, unless its place has no part to compare. */
  lemma PostedFactMatches(r: Rules, f: Finding)
    requires EmptyTextRules(r) && FactTypeOf(f.kind).Some?
    ensures FactMatches(r, PostedFact(f), f, IsUnique(f.kind)) <==> MatchablePlace(r, f)
  {
    PlaceAgreesWithItself(r, f);
    hide PlaceAgrees;
    hide MatchablePlace;
    var x := PostedFact(f);
    if Truthy(f.date) {
      assert Texts(x) == [f.date.value];
      assert f.date.value in Texts(x);
    }
  }

  lemma UnmatchablePlaceNeverAgrees(r: Rules, x: Fact, f: Finding)
    requires !MatchablePlace(r, f)
    ensures !FactMatches(r, x, f, IsUnique(f.kind))
  {
    hide Parts;
    hide UniqueDateAgrees;
  }

  /** A person who has the posted fact still lacks the conclusion exactly when it is a residence whose place has
      no part to compare. */
  lemma PostedFactStatus(r: Rules, person: Person, f: Finding)
    requires EmptyTextRules(r) && FactTypeOf(f.kind).Some? && (Truthy(f.date) || Truthy(f.place))
    requires PostedFact(f) in person.facts
    ensures FactStatus(r, person, f) == Absent <==> f.kind == Residence && !MatchablePlace(r, f)
  {
    PostedFactMatches(r, f);
    forall x <- person.facts ensures !MatchablePlace(r, f) ==> !FactMatches(r, x, f, IsUnique(f.kind)) {
      if !MatchablePlace(r, f) {
        UnmatchablePlaceNeverAgrees(r, x, f);
      }
    }
    hide FactMatches;
    hide MatchablePlace;
  }

  lemma PostedNameStatus(r: Rules, person: Person, f: Finding)
    requires f.kind == NameVariant && [Some(f.value)] in person.names
    ensures FactStatus(r, person, f) == Present
  {
    var forms := [Some(f.value)];
    assert Some(f.value) in forms && Norm(r, Some(f.value)) == r.norm(f.value);
  }

  // ----- findings --------------------------------------------------------

  /** The finding needs no note later: it is a conclusion of the person, or its note is there. */
  lemma NotedStays(srv: Server, now: Server, c: Ctx, d: Ctx, f: Finding)
    requires Later(srv, now, c, d)
    requires Noted(c, f) ==> Some(NoteText(f, FactStatus(c.rules, c.person, f))) in now.person.notes
    ensures !Noted(d, f)
  {
    PresenceGrows(c.rules, c.person, d.person, f);
    if Noted(c, f) {
      var text := NoteText(f, FactStatus(c.rules, c.person, f));
      NoteCarriesMarker(f, FactStatus(c.rules, c.person, f));
      assert Contains(Some(text).GetOr(""), Marker(f));
    }
    hide FactStatus;
    hide NoteText;
    hide Contains;
    hide Marker;
  }

  /** A conclusion written for the finding is not concluded again, unless it is an unmatchable residence. */
  lemma ConcludedStays(now: Server, c: Ctx, d: Ctx, f: Finding)
    requires EmptyTextRules(c.rules) && d.rules == c.rules && d.person == now.person && Concludable(c, f)
    requires f.kind == NameVariant ==> [Some(f.value)] in now.person.names
    requires f.kind != NameVariant ==> FactTypeOf(f.kind).Some? && PostedFact(f) in now.person.facts
    ensures Concludable(d, f) ==> f.kind == Residence && !MatchablePlace(c.rules, f)
  {
    if f.kind == NameVariant {
      PostedNameStatus(c.rules, d.person, f);
    } else {
      assert Truthy(f.date) || Truthy(f.place);
      PostedFactStatus(c.rules, d.person, f);
    }
    hide FactStatus;
    hide MatchablePlace;
  }

  // ----- one run ---------------------------------------------------------

  /** What a run of `applyPlan` over the operations of context `c` leaves behind (SafeRun, BodiesPosted). */
  ghost predicate Ran(host: string, srv: Server, posts: seq<Post>, c: Ctx, fs: seq<Finding>) {
    && UrlSafeHost(host) && Filed(srv) && FreshIds(srv, posts) && PlainBodies(host, posts)
    && (forall k :: 0 <= k < |posts| ==> posts[k].op in Operations(c, fs) && DependencyPosted(host, posts, k))
    && DistinctIds(fs) && GroupsApart(fs)
    && c.person == srv.person && c.doc.descriptions == srv.descriptions
  }

  ghost predicate NoBadDeclaration(c: Ctx, fs: seq<Finding>) {
    forall g <- GroupsOf(fs) :: g.members != [] && !BadDeclaration(c, g)
  }

  ghost predicate AllNameable(c: Ctx, fs: seq<Finding>) {
    forall g <- GroupsOf(fs) :: g.members != [] && Nameable(c, g)
  }

  /** Where an operation of a plan comes from. */
  lemma {:induction false} OperationOrigin(c: Ctx, fs: seq<Finding>, op: Op)
    requires op in Operations(c, fs)
    ensures op.opType == CreateSource ==>
      exists g <- GroupsOf(fs) :: g.members != [] && NeedsCreate(c, g) && op == CreateOp(c, g)
    ensures op.opType == AttachSource ==>
      exists g <- GroupsOf(fs) :: g.members != [] && NeedsAttach(c, g) && op == AttachOp(c, g)
    ensures op.opType == AddNote ==> exists f <- fs :: Noted(c, f) && op == NoteOp(c, f)
    ensures op.opType == AddFact || op.opType == AddName ==>
      exists f <- fs :: Concludable(c, f) && ConclusionOp(c, f) == Some(op)
  {
    GroupsInhabited(fs);
    OperationTypes(c, fs);
    SourceOps(c, GroupsOf(fs));
    NoteOps(c, fs);
    FactOps(c, fs);
    var s, p := PlanSources(c, GroupsOf(fs)), PlanFindings(c, fs);
    assert Operations(c, fs) == s.creates + s.attaches + p.notes + p.facts;
    hide *;
  }

  /** The attachment of a group settles it. */
  lemma {:induction false} AttachSettles(host: string, srv: Server, posts: seq<Post>, c: Ctx, fs: seq<Finding>,
                                         g: Group, k: nat)
    requires Ran(host, srv, posts, c, fs) && k < |posts| && TakesEffect(posts[k])
    requires g in GroupsOf(fs) && g.members != [] && NeedsAttach(c, g) && posts[k].op == AttachOp(c, g)
    requires Nameable(c, g) && !BadDeclaration(c, g)
    ensures Settled(srv, After(srv, posts), c, g)
  {
    var now := After(srv, posts);
    if NeedsCreate(c, g) {
      var dep := OpKey(CreateSource, Ids(g.members));
      assert TypeName(CreateSource) != "" && dep[0] == 'c';
      assert DependencyPosted(host, posts, k);
      var j, url :| 0 <= j < k && Creates(posts[j], dep, url, host) && CarriesUrl(posts[k].op, posts[k], url);
      OperationOrigin(c, fs, posts[j].op);
      var h :| h in GroupsOf(fs) && h.members != [] && NeedsCreate(c, h) && posts[j].op == CreateOp(c, h);
      GroupKeysApart(fs, CreateSource, h, CreateSource, g);
      assert posts[j].body == CreateOp(c, g).body;
      var id := Created(posts[j]);
      DescriptionUrlRoundTrip(host, id);
      AttachedIsListed(srv, posts, j, k);
      CreatedDescribes(c, g, id);
      hide DescribesGroup;
      var i :| |srv.descriptions| <= i < |now.descriptions| && now.descriptions[i] == DescriptionOf(posts[j]);
      assert DescribesGroup(c.rules, now.descriptions[i], g);
    } else {
      var id := ExistingId(c, g).value;
      if Declared(c, g).Some? {
        DeclaredUrlSafe(id);
      }
      DescriptionUrlRoundTrip(host, id);
      assert posts[k].body.description == DescriptionUrl(host, id);
      EffectLasts(srv, posts, k);
    }
  }

  lemma {:induction false} GroupStays(host: string, srv: Server, posts: seq<Post>, c: Ctx, d: Ctx, fs: seq<Finding>,
                                      g: Group)
    requires Ran(host, srv, posts, c, fs) && Later(srv, After(srv, posts), c, d)
    requires g in GroupsOf(fs) && g.members != [] && Nameable(c, g) && !BadDeclaration(c, g)
    requires NeedsAttach(c, g) ==>
      exists k :: 0 <= k < |posts| && posts[k].op == AttachOp(c, g) && TakesEffect(posts[k])
    ensures !NeedsCreate(d, g) && !NeedsAttach(d, g)
  {
    var now := After(srv, posts);
    if NeedsAttach(c, g) {
      var k :| 0 <= k < |posts| && posts[k].op == AttachOp(c, g) && TakesEffect(posts[k]);
      AttachSettles(host, srv, posts, c, fs, g, k);
    } else {
      AttachedIdsGrow(srv.person.sources, now.person.sources);
    }
    SettledStays(srv, now, c, d, g);
  }

  lemma {:induction false} NotePosted(host: string, srv: Server, posts: seq<Post>, c: Ctx, d: Ctx, fs: seq<Finding>,
                                      f: Finding)
    requires Ran(host, srv, posts, c, fs) && Later(srv, After(srv, posts), c, d)
    requires Noted(c, f) ==> exists k :: 0 <= k < |posts| && posts[k].op == NoteOp(c, f) && TakesEffect(posts[k])
    ensures !Noted(d, f)
  {
    if Noted(c, f) {
      var k :| 0 <= k < |posts| && posts[k].op == NoteOp(c, f) && TakesEffect(posts[k]);
      assert posts[k].body == posts[k].op.body;
      EffectLasts(srv, posts, k);
    }
    NotedStays(srv, After(srv, posts), c, d, f);
  }

  lemma {:induction false} ConclusionPosted(host: string, srv: Server, posts: seq<Post>, c: Ctx, d: Ctx,
                                            fs: seq<Finding>, f: Finding, k: nat)
    requires Ran(host, srv, posts, c, fs) && Later(srv, After(srv, posts), c, d) && EmptyTextRules(c.rules)
    requires Concludable(c, f) && k < |posts| && ConclusionOp(c, f) == Some(posts[k].op) && TakesEffect(posts[k])
    ensures Concludable(d, f) ==> f.kind == Residence && !MatchablePlace(c.rules, f)
  {
    assert posts[k].body == posts[k].op.body;
    EffectLasts(srv, posts, k);
    ConcludedStays(After(srv, posts), c, d, f);
  }

  /** The identities of operations in two plans over the same findings agree only where their origins do. */
  lemma SameIdSameType(fs: seq<Finding>, x: Op, y: Op)
    requires WellKeyed(fs, x) && WellKeyed(fs, y) && x.id == y.id
    ensures x.opType == y.opType && Joined(x.findingIds) == Joined(y.findingIds)
  {
    SameKeyIffSameText(x.opType, x.findingIds, y.opType, y.findingIds);
  }

  /** Whether a later plan has the operation `op` of context `c` again: a description whose group has no nameable one
      and none newly listed, an attachment of what cannot be named, a residence that cannot be compared. */
  ghost predicate Returns(srv: Server, now: Server, c: Ctx, fs: seq<Finding>, op: Op) {
    match op.opType
    case CreateSource =>
      exists g <- GroupsOf(fs) :: g.members != [] && NeedsCreate(c, g) && op == CreateOp(c, g)
        && (!Nameable(c, g) || !NewlyDescribed(srv, now, c, g))
    case AttachSource =>
      exists g <- GroupsOf(fs) :: g.members != [] && NeedsAttach(c, g) && op == AttachOp(c, g) && !Nameable(c, g)
    case AddNote => false
    case AddFact =>
      exists f <- fs :: ConclusionOp(c, f) == Some(op) && f.kind == Residence && !MatchablePlace(c.rules, f)
    case AddName => false
  }

  /** The ids of a plan's creates and attachments are those of the groups that need them. */
  lemma {:induction false} SourceInPlan(d: Ctx, fs: seq<Finding>, g: Group)
    requires GroupsApart(fs) && g in GroupsOf(fs) && g.members != []
    ensures OpKey(CreateSource, Ids(g.members)) in OpIds(Operations(d, fs)) <==> NeedsCreate(d, g)
    ensures OpKey(AttachSource, Ids(g.members)) in OpIds(Operations(d, fs)) <==> NeedsAttach(d, g)
  {
    GroupsInhabited(fs);
    SourceOps(d, GroupsOf(fs));
    var ops := Operations(d, fs);
    assert NeedsCreate(d, g) ==> CreateOp(d, g) in ops;
    assert NeedsAttach(d, g) ==> AttachOp(d, g) in ops;
    assert CreateOp(d, g).id == OpKey(CreateSource, Ids(g.members));
    assert AttachOp(d, g).id == OpKey(AttachSource, Ids(g.members));
    hide *;
    if NeedsCreate(d, g) {
      InOpIds(ops, CreateOp(d, g));
    }
    if NeedsAttach(d, g) {
      InOpIds(ops, AttachOp(d, g));
    }
    if OpKey(CreateSource, Ids(g.members)) in OpIds(ops) {
      SourceByKey(d, fs, CreateSource, g);
    }
    if OpKey(AttachSource, Ids(g.members)) in OpIds(ops) {
      SourceByKey(d, fs, AttachSource, g);
    }
  }

  lemma {:induction false} SourceByKey(d: Ctx, fs: seq<Finding>, t: OpType, g: Group)
    requires GroupsApart(fs) && g in GroupsOf(fs) && g.members != []
    requires (t == CreateSource || t == AttachSource) && OpKey(t, Ids(g.members)) in OpIds(Operations(d, fs))
    ensures if t == CreateSource then NeedsCreate(d, g) else NeedsAttach(d, g)
  {
    var op := OpOfId(Operations(d, fs), OpKey(t, Ids(g.members)));
    OperationsWellKeyed(d, fs);
    OperationOrigin(d, fs, op);
    SameKeyIffSameText(op.opType, op.findingIds, t, Ids(g.members));
    hide Operations, NeedsCreate, NeedsAttach, OpKey, GroupsOf, Ids, Joined;
    if t == CreateSource {
      var h :| h in GroupsOf(fs) && h.members != [] && NeedsCreate(d, h) && op == CreateOp(d, h);
      GroupKeysApart(fs, t, h, t, g);
    } else {
      var h :| h in GroupsOf(fs) && h.members != [] && NeedsAttach(d, h) && op == AttachOp(d, h);
      GroupKeysApart(fs, t, h, t, g);
    }
  }

  lemma OpOfId(ops: seq<Op>, id: string) returns (op: Op)
    requires id in OpIds(ops)
    ensures op in ops && op.id == id
  {
    var i :| 0 <= i < |ops| && OpIds(ops)[i] == id;
    op := ops[i];
  }

  /** The exact account of what planning again repeats, whatever part of a plan was carried out and however the run
      ended: for an operation that took effect, its answer lost or not, and for any create. */
  lemma {:induction false} PostedReturnsIff(host: string, srv: Server, posts: seq<Post>, c: Ctx, d: Ctx,
                                            fs: seq<Finding>, k: nat)
    requires Ran(host, srv, posts, c, fs) && Later(srv, After(srv, posts), c, d) && EmptyTextRules(c.rules)
    requires NoBadDeclaration(c, fs) && k < |posts|
    requires TakesEffect(posts[k]) || posts[k].op.opType == CreateSource
    ensures posts[k].op.id in OpIds(Operations(d, fs)) <==> Returns(srv, After(srv, posts), c, fs, posts[k].op)
  {
    match posts[k].op.opType
    case CreateSource => CreateReturnsIff(host, srv, posts, c, d, fs, k);
    case AttachSource => AttachReturnsIff(host, srv, posts, c, d, fs, k);
    case AddNote => NoteNeverReturns(host, srv, posts, c, d, fs, k);
    case _ => ConclusionReturnsIff(host, srv, posts, c, d, fs, k);
    hide *;
  }

  lemma {:induction false} CreateReturnsIff(host: string, srv: Server, posts: seq<Post>, c: Ctx, d: Ctx,
                                            fs: seq<Finding>, k: nat)
    requires Ran(host, srv, posts, c, fs) && Later(srv, After(srv, posts), c, d) && NoBadDeclaration(c, fs)
    requires k < |posts| && posts[k].op.opType == CreateSource
    ensures posts[k].op.id in OpIds(Operations(d, fs)) <==> Returns(srv, After(srv, posts), c, fs, posts[k].op)
  {
    var op := posts[k].op;
    assert op in Operations(c, fs);
    OperationOrigin(c, fs, op);
    hide Operations, Later, NeedsCreate, Nameable, NewlyDescribed, After, OpKey, GroupsOf, Ids, DescribesGroup;
    var g :| g in GroupsOf(fs) && g.members != [] && NeedsCreate(c, g) && op == CreateOp(c, g);
    SourceInPlan(d, fs, g);
    CreateNeededAgain(srv, After(srv, posts), c, d, g);
    CreateOfOneGroup(c, fs, g);
  }

  lemma {:induction false} AttachReturnsIff(host: string, srv: Server, posts: seq<Post>, c: Ctx, d: Ctx,
                                            fs: seq<Finding>, k: nat)
    requires Ran(host, srv, posts, c, fs) && Later(srv, After(srv, posts), c, d) && NoBadDeclaration(c, fs)
    requires k < |posts| && posts[k].op.opType == AttachSource && TakesEffect(posts[k])
    ensures posts[k].op.id in OpIds(Operations(d, fs)) <==> Returns(srv, After(srv, posts), c, fs, posts[k].op)
  {
    var op := posts[k].op;
    assert op in Operations(c, fs);
    OperationOrigin(c, fs, op);
    hide Operations, Later, NeedsCreate, NeedsAttach, Nameable, After, OpKey, GroupsOf, Ids;
    var g :| g in GroupsOf(fs) && g.members != [] && NeedsAttach(c, g) && op == AttachOp(c, g);
    SourceInPlan(d, fs, g);
    AttachNeededAgain(host, srv, posts, c, d, fs, g, k);
    AttachOfOneGroup(c, fs, g);
  }

  lemma {:induction false} NoteNeverReturns(host: string, srv: Server, posts: seq<Post>, c: Ctx, d: Ctx,
                                            fs: seq<Finding>, k: nat)
    requires Ran(host, srv, posts, c, fs) && Later(srv, After(srv, posts), c, d) && NoBadDeclaration(c, fs)
    requires k < |posts| && posts[k].op.opType == AddNote && TakesEffect(posts[k])
    ensures posts[k].op.id !in OpIds(Operations(d, fs)) && !Returns(srv, After(srv, posts), c, fs, posts[k].op)
  {
    var op := posts[k].op;
    assert op in Operations(c, fs);
    hide Operations, Later, After, OpKey, GroupsOf, Ids, NoBadDeclaration;
    if op.id in OpIds(Operations(d, fs)) {
      var next := OpOfId(Operations(d, fs), op.id);
      SameTypeAgain(c, d, fs, op, next);
      NoteRepeats(host, srv, posts, c, d, fs, k, next);
    }
  }

  lemma CreateOfOneGroup(c: Ctx, fs: seq<Finding>, g: Group)
    requires GroupsApart(fs) && g in GroupsOf(fs) && g.members != []
    ensures forall h <- GroupsOf(fs) :: h.members != [] && CreateOp(c, h) == CreateOp(c, g) ==> h == g
  {
    forall h <- GroupsOf(fs) | h.members != [] && CreateOp(c, h) == CreateOp(c, g) ensures h == g {
      GroupKeysApart(fs, CreateSource, h, CreateSource, g);
    }
  }

  lemma AttachOfOneGroup(c: Ctx, fs: seq<Finding>, g: Group)
    requires GroupsApart(fs) && g in GroupsOf(fs) && g.members != [] && NeedsAttach(c, g)
    ensures forall h <- GroupsOf(fs) ::
      h.members != [] && NeedsAttach(c, h) && AttachOp(c, h) == AttachOp(c, g) ==> h == g
  {
    forall h <- GroupsOf(fs) | h.members != [] && NeedsAttach(c, h) && AttachOp(c, h) == AttachOp(c, g) ensures h == g {
      assert AttachOp(c, h).id == OpKey(AttachSource, Ids(h.members));
      GroupKeysApart(fs, AttachSource, h, AttachSource, g);
    }
  }

  lemma {:induction false} AttachNeededAgain(host: string, srv: Server, posts: seq<Post>, c: Ctx, d: Ctx,
                                             fs: seq<Finding>, g: Group, k: nat)
    requires Ran(host, srv, posts, c, fs) && Later(srv, After(srv, posts), c, d)
    requires g in GroupsOf(fs) && g.members != [] && !BadDeclaration(c, g) && NeedsAttach(c, g)
    requires k < |posts| && posts[k].op == AttachOp(c, g) && TakesEffect(posts[k])
    ensures NeedsAttach(d, g) <==> !Nameable(c, g)
  {
    if Nameable(c, g) {
      GroupStays(host, srv, posts, c, d, fs, g);
    } else {
      AttachBodiesAreUrls(host, srv, posts, c, fs);
      NewAttachmentsUrlSafe(host, srv, posts);
      UnnameableRepeats(srv, After(srv, posts), c, d, g);
    }
    hide *;
  }

  lemma {:induction false} SameTypeAgain(c: Ctx, d: Ctx, fs: seq<Finding>, op: Op, next: Op)
    requires op in Operations(c, fs) && next in Operations(d, fs) && op.id == next.id
    ensures op.opType == next.opType
  {
    OperationsWellKeyed(c, fs);
    OperationsWellKeyed(d, fs);
    SameIdSameType(fs, op, next);
    hide *;
  }

  lemma {:induction false} ConclusionReturnsIff(host: string, srv: Server, posts: seq<Post>, c: Ctx, d: Ctx,
                                                fs: seq<Finding>, k: nat)
    requires Ran(host, srv, posts, c, fs) && Later(srv, After(srv, posts), c, d) && EmptyTextRules(c.rules)
    requires k < |posts| && TakesEffect(posts[k])
    requires posts[k].op.opType == AddFact || posts[k].op.opType == AddName
    ensures posts[k].op.id in OpIds(Operations(d, fs)) <==> Returns(srv, After(srv, posts), c, fs, posts[k].op)
  {
    var op := posts[k].op;
    assert op in Operations(c, fs) && DistinctIds(fs);
    hide *;
    if op.id in OpIds(Operations(d, fs)) {
      ReturnedIsResidence(host, srv, posts, c, d, fs, k);
    }
    if Returns(srv, After(srv, posts), c, fs, op) {
      ResidenceReturns(srv, After(srv, posts), c, d, fs, op);
    }
  }

  lemma {:induction false} ReturnedIsResidence(host: string, srv: Server, posts: seq<Post>, c: Ctx, d: Ctx,
                                               fs: seq<Finding>, k: nat)
    requires Ran(host, srv, posts, c, fs) && Later(srv, After(srv, posts), c, d) && EmptyTextRules(c.rules)
    requires k < |posts| && TakesEffect(posts[k])
    requires posts[k].op.opType == AddFact || posts[k].op.opType == AddName
    requires posts[k].op.id in OpIds(Operations(d, fs))
    ensures Returns(srv, After(srv, posts), c, fs, posts[k].op)
  {
    var op := posts[k].op;
    assert op in Operations(c, fs) && DistinctIds(fs);
    hide Operations, After, Ran, Later, MatchablePlace, EmptyTextRules, OpKey, FindingId, DistinctIds;
    var f := ConclusionOrigin(c, fs, op);
    var next := OpOfId(Operations(d, fs), op.id);
    SameTypeAgain(c, d, fs, op, next);
    ConclusionRepeats(host, srv, posts, c, d, fs, k, next);
    var e :| e in fs && ConclusionOp(d, e) == Some(next) && e.kind == Residence && !MatchablePlace(c.rules, e);
    assert next.id == OpKey(AddFact, [FindingId(e)]);
    hide ConclusionOp;
    FindingKeysApart(fs, AddFact, e, AddFact, f);
  }

  lemma {:induction false} ResidenceReturns(srv: Server, now: Server, c: Ctx, d: Ctx, fs: seq<Finding>, op: Op)
    requires Later(srv, now, c, d) && DistinctIds(fs) && op in Operations(c, fs)
    requires (op.opType == AddFact || op.opType == AddName) && Returns(srv, now, c, fs, op)
    ensures op.id in OpIds(Operations(d, fs))
  {
    hide Operations, Later, MatchablePlace, DistinctIds, ConclusionOp;
    var e :| e in fs && ConclusionOp(c, e) == Some(op) && e.kind == Residence && !MatchablePlace(c.rules, e);
    PlannedFacts(c, fs, op);
    ResidenceComesBack(srv, now, c, d, fs, fs, e);
    FactInPlan(d, fs, op);
    InOpIds(Operations(d, fs), op);
  }

  /** In particular a created description whose attachment took effect never comes back, if its group was nameable. */
  lemma {:induction false} AttachedNeverReturns(host: string, srv: Server, posts: seq<Post>, c: Ctx, d: Ctx,
                                                fs: seq<Finding>, g: Group, j: nat)
    requires Ran(host, srv, posts, c, fs) && Later(srv, After(srv, posts), c, d)
    requires g in GroupsOf(fs) && g.members != [] && !BadDeclaration(c, g) && Nameable(c, g) && NeedsAttach(c, g)
    requires j < |posts| && posts[j].op == AttachOp(c, g) && TakesEffect(posts[j])
    ensures OpKey(CreateSource, Ids(g.members)) !in OpIds(Operations(d, fs))
    ensures OpKey(AttachSource, Ids(g.members)) !in OpIds(Operations(d, fs))
  {
    GroupStays(host, srv, posts, c, d, fs, g);
    SourceInPlan(d, fs, g);
    hide Operations, After, Nameable, NeedsCreate, NeedsAttach, OpKey, GroupsOf;
  }

  lemma {:induction false} NoteRepeats(host: string, srv: Server, posts: seq<Post>, c: Ctx, d: Ctx, fs: seq<Finding>,
                                       k: nat, op: Op)
    requires Ran(host, srv, posts, c, fs) && Later(srv, After(srv, posts), c, d)
    requires k < |posts| && TakesEffect(posts[k]) && posts[k].op.opType == AddNote
    requires op in Operations(d, fs) && op.opType == AddNote
    ensures op.id != posts[k].op.id
  {
    OperationOrigin(c, fs, posts[k].op);
    OperationOrigin(d, fs, op);
    var f :| f in fs && Noted(c, f) && posts[k].op == NoteOp(c, f);
    var e :| e in fs && Noted(d, e) && op == NoteOp(d, e);
    FindingKeysApart(fs, AddNote, e, AddNote, f);
    if e == f {
      NotePosted(host, srv, posts, c, d, fs, f);
    }
  }

  lemma {:induction false} ConclusionRepeats(host: string, srv: Server, posts: seq<Post>, c: Ctx, d: Ctx,
                                             fs: seq<Finding>, k: nat, op: Op)
    requires Ran(host, srv, posts, c, fs) && Later(srv, After(srv, posts), c, d) && EmptyTextRules(c.rules)
    requires k < |posts| && TakesEffect(posts[k]) && op in Operations(d, fs) && op.id == posts[k].op.id
    requires op.opType == posts[k].op.opType && (op.opType == AddFact || op.opType == AddName)
    ensures op.opType == AddFact
    ensures exists f <- fs :: ConclusionOp(d, f) == Some(op) && f.kind == Residence && !MatchablePlace(c.rules, f)
  {
    var f := ConclusionOrigin(c, fs, posts[k].op);
    var e := ConclusionOrigin(d, fs, op);
    FindingKeysApart(fs, op.opType, e, op.opType, f);
    ConclusionPosted(host, srv, posts, c, d, fs, f, k);
    assert e == f && f.kind == Residence;
    assert op.opType == AddFact;
    hide *;
  }

  lemma {:induction false} ConclusionOrigin(c: Ctx, fs: seq<Finding>, op: Op) returns (f: Finding)
    requires op in Operations(c, fs) && (op.opType == AddFact || op.opType == AddName)
    ensures f in fs && Concludable(c, f) && ConclusionOp(c, f) == Some(op)
    ensures op.id == OpKey(op.opType, [FindingId(f)]) && (f.kind == NameVariant <==> op.opType == AddName)
  {
    OperationOrigin(c, fs, op);
    hide Operations;
    f :| f in fs && Concludable(c, f) && ConclusionOp(c, f) == Some(op);
    hide Concludable;
  }

  // ----- complete runs ---------------------------------------------------

  /** Every operation of the plan was posted and took effect, its answer lost or not. */
  ghost predicate AllPosted(ops: seq<Op>, posts: seq<Post>) {
    forall op <- ops :: PostedOk(op, posts)
  }

  ghost predicate PostedOk(op: Op, posts: seq<Post>) {
    exists k :: 0 <= k < |posts| && posts[k].op == op && TakesEffect(posts[k])
  }

  lemma {:induction false} NothingNoted(host: string, srv: Server, posts: seq<Post>, c: Ctx, d: Ctx, fs: seq<Finding>)
    requires Ran(host, srv, posts, c, fs) && Later(srv, After(srv, posts), c, d) && AllPosted(Operations(c, fs), posts)
    ensures PlanFindings(d, fs).notes == []
  {
    NoteOps(c, fs);
    var p := PlanFindings(c, fs);
    forall f <- fs ensures !Noted(d, f) {
      if Noted(c, f) {
        assert NoteOp(c, f) in p.notes;
        assert NoteOp(c, f) in Operations(c, fs);
        assert PostedOk(NoteOp(c, f), posts);
      }
      NotePosted(host, srv, posts, c, d, fs, f);
    }
    NoneNoted(d, fs);
  }

  lemma {:induction false} NoneNoted(d: Ctx, fs: seq<Finding>)
    requires forall f <- fs :: !Noted(d, f)
    ensures PlanFindings(d, fs).notes == []
  {
    hide FindingStep;
    hide Noted;
    if fs != [] {
      NoneNoted(d, fs[..|fs| - 1]);
      StepEffect(d, PlanFindings(d, fs[..|fs| - 1]), fs[|fs| - 1]);
    }
  }

  /** After a complete run a nameable group needs nothing more. */
  lemma {:induction false} GroupsDone(host: string, srv: Server, posts: seq<Post>, c: Ctx, d: Ctx, fs: seq<Finding>,
                                      g: Group)
    requires Ran(host, srv, posts, c, fs) && Later(srv, After(srv, posts), c, d) && AllPosted(Operations(c, fs), posts)
    requires g in GroupsOf(fs) && g.members != [] && Nameable(c, g) && !BadDeclaration(c, g)
    ensures !NeedsCreate(d, g) && !NeedsAttach(d, g)
  {
    GroupsInhabited(fs);
    SourceOps(c, GroupsOf(fs));
    if NeedsAttach(c, g) {
      assert AttachOp(c, g) in Operations(c, fs);
      assert PostedOk(AttachOp(c, g), posts);
    }
    GroupStays(host, srv, posts, c, d, fs, g);
  }

  lemma {:induction false} NoGroupsNoOps(d: Ctx, gs: seq<Group>)
    requires Inhabited(gs) && forall g <- gs :: g.members != [] && !NeedsCreate(d, g) && !NeedsAttach(d, g)
    ensures PlanSources(d, gs).creates == [] && PlanSources(d, gs).attaches == []
  {
    if gs != [] {
      NoGroupsNoOps(d, gs[..|gs| - 1]);
    }
  }

  lemma {:induction false} SourcesDone(host: string, srv: Server, posts: seq<Post>, c: Ctx, d: Ctx, fs: seq<Finding>)
    requires Ran(host, srv, posts, c, fs) && Later(srv, After(srv, posts), c, d) && AllPosted(Operations(c, fs), posts)
    requires NoBadDeclaration(c, fs) && AllNameable(c, fs)
    ensures Inhabited(GroupsOf(fs))
    ensures PlanSources(d, GroupsOf(fs)).creates == [] && PlanSources(d, GroupsOf(fs)).attaches == []
  {
    GroupsInhabited(fs);
    forall g <- GroupsOf(fs) ensures !NeedsCreate(d, g) && !NeedsAttach(d, g) {
      GroupsDone(host, srv, posts, c, d, fs, g);
    }
    NoGroupsNoOps(d, GroupsOf(fs));
  }

  /** Attachments made by a run have URL-safe ids. */
  lemma {:induction false} NewAttachmentsUrlSafe(host: string, srv: Server, posts: seq<Post>)
    requires UrlSafeHost(host)
    requires forall k :: 0 <= k < |posts| && posts[k].body.AttachBody? ==>
      exists id :: posts[k].body.description == DescriptionUrl(host, id)
    ensures forall id <- AttachedIds(After(srv, posts).person.sources) ::
      id in AttachedIds(srv.person.sources) || UrlSafe(id)
  {
    hide AttachedIds, UrlSafe, DescriptionIdOf, DescriptionUrl, UrlSafeHost, Store;
    if posts != [] {
      var n := |posts| - 1;
      var before, p := After(srv, posts[..n]), posts[n];
      NewAttachmentsUrlSafe(host, srv, posts[..n]);
      StoreAttaches(before, p);
      if p.body.AttachBody? {
        var id :| p.body.description == DescriptionUrl(host, id);
        DescriptionUrlRoundTrip(host, id);
      }
    }
  }

  lemma {:induction false} AttachBodiesAreUrls(host: string, srv: Server, posts: seq<Post>, c: Ctx, fs: seq<Finding>)
    requires Ran(host, srv, posts, c, fs)
    ensures forall k :: 0 <= k < |posts| && posts[k].body.AttachBody? ==>
      exists id :: posts[k].body.description == DescriptionUrl(host, id)
  {
    hide Operations, GroupsOf, NeedsCreate, NeedsAttach, ExistingId, DescriptionUrl, Filed, FreshIds, UrlSafeHost, Ids,
         DistinctIds, GroupsApart;
    forall k | 0 <= k < |posts| && posts[k].body.AttachBody?
      ensures exists id :: posts[k].body.description == DescriptionUrl(host, id)
    {
      var op := posts[k].op;
      OperationOrigin(c, fs, op);
      assert op.body.AttachBody?;
      var g :| g in GroupsOf(fs) && g.members != [] && NeedsAttach(c, g) && op == AttachOp(c, g);
      if op.dependsOn.Some? {
        assert DependencyPosted(host, posts, k);
        assert TypeName(CreateSource) != "" && op.dependsOn.value[0] == 'c';
        var j, url :| 0 <= j < k && Creates(posts[j], op.dependsOn.value, url, host) && CarriesUrl(op, posts[k], url);
        assert posts[k].body.description == url;
      }
    }
  }

  /** With conclusion writes off, planning again after a complete run gives no operation exactly when every
      description found for a group could be named. */
  lemma {:induction false} FixedPoint(host: string, srv: Server, posts: seq<Post>, c: Ctx, d: Ctx, fs: seq<Finding>)
    requires Ran(host, srv, posts, c, fs) && Later(srv, After(srv, posts), c, d) && AllPosted(Operations(c, fs), posts)
    requires NoBadDeclaration(c, fs) && !c.opts.allowConclusions
    ensures Operations(d, fs) == [] <==> AllNameable(c, fs)
  {
    GroupsInhabited(fs);
    if AllNameable(c, fs) {
      SourcesDone(host, srv, posts, c, d, fs);
      NothingNoted(host, srv, posts, c, d, fs);
      ConclusionsNeedOptIn(d, fs);
    } else {
      var g :| g in GroupsOf(fs) && !Nameable(c, g);
      AttachBodiesAreUrls(host, srv, posts, c, fs);
      NewAttachmentsUrlSafe(host, srv, posts);
      UnnameableRepeats(srv, After(srv, posts), c, d, g);
      SourceOps(d, GroupsOf(fs));
      assert AttachOp(d, g) in Operations(d, fs);
    }
  }

  // ----- which conclusions come back --------------------------------------

  ghost predicate Concluded(c: Ctx, fs: seq<Finding>, f: Finding) {
    ConclusionOp(c, f).Some? && ConclusionOp(c, f).value in Operations(c, fs)
  }

  /** Every residence the plan adds has a place that can be compared later. */
  ghost predicate ResidencesMatchable(c: Ctx, fs: seq<Finding>) {
    forall f <- fs :: f.kind == Residence && Concluded(c, fs, f) ==> MatchablePlace(c.rules, f)
  }

  lemma KeyTellsResidence(r: Rules, e: Finding, f: Finding)
    requires f.kind == Residence && ConclusionKey(r, e) == ConclusionKey(r, f)
    ensures e.kind == Residence
  {
    var x, y := ConclusionKey(r, e), ConclusionKey(r, f);
    assert y[0] == 'r' && y[2] == 's';
    assert x[0] == KindName(e.kind)[0] && x[2] == KindName(e.kind)[2];
  }

  /** A key is seen only because of an earlier missing conclusion. */
  lemma {:induction false} SeenOrigin(c: Ctx, fs: seq<Finding>, key: string)
    requires key in PlanFindings(c, fs).seen
    ensures exists e <- fs :: Concludable(c, e) && ConclusionKey(c.rules, e) == key
  {
    hide FindingStep, ConclusionKey, Concludable, ConclusionOp;
    var n := |fs| - 1;
    StepEffect(c, PlanFindings(c, fs[..n]), fs[n]);
    assert fs[n] in fs;
    if key in PlanFindings(c, fs[..n]).seen {
      SeenOrigin(c, fs[..n], key);
    }
  }

  /** A residence that is missing later was missing before; one that cannot be compared stays missing. */
  lemma ResidenceStatus(srv: Server, now: Server, c: Ctx, d: Ctx, f: Finding)
    requires Later(srv, now, c, d) && f.kind == Residence
    ensures Concludable(d, f) ==> Concludable(c, f)
    ensures Concludable(c, f) && !MatchablePlace(c.rules, f) ==> Concludable(d, f)
  {
    PresenceGrows(c.rules, c.person, d.person, f);
    forall x <- d.person.facts ensures !MatchablePlace(c.rules, f) ==> !FactMatches(c.rules, x, f, IsUnique(f.kind)) {
      if !MatchablePlace(c.rules, f) {
        UnmatchablePlaceNeverAgrees(c.rules, x, f);
      }
    }
    hide FactMatches, MatchablePlace;
  }

  /** A residence key that the later plan has seen, the earlier plan had seen at the same finding. */
  lemma ResidenceKeySeen(srv: Server, now: Server, c: Ctx, d: Ctx, fs: seq<Finding>, f: Finding)
    requires Later(srv, now, c, d) && f.kind == Residence && ConclusionKey(c.rules, f) in PlanFindings(d, fs).seen
    ensures ConclusionKey(c.rules, f) in PlanFindings(c, fs).seen
  {
    SeenOrigin(d, fs, ConclusionKey(c.rules, f));
    var e :| e in fs && Concludable(d, e) && ConclusionKey(d.rules, e) == ConclusionKey(c.rules, f);
    KeyTellsResidence(c.rules, e, f);
    ResidenceStatus(srv, now, c, d, e);
    SeenArePlanned(c, fs);
    hide PlanFindings, Concludable, ConclusionKey, KeyPlanned, KindPlanned;
  }

  /** A residence that the earlier plan concludes and that cannot be compared is concluded again by the later one. */
  lemma {:induction false} ResidenceComesBack(srv: Server, now: Server, c: Ctx, d: Ctx, all: seq<Finding>,
                                              fs: seq<Finding>, f: Finding)
    requires Later(srv, now, c, d) && DistinctIds(all) && fs <= all && f in all
    requires f.kind == Residence && !MatchablePlace(c.rules, f)
    requires ConclusionOp(c, f).Some? && ConclusionOp(c, f).value in PlanFindings(c, fs).facts
    ensures ConclusionOp(d, f) == ConclusionOp(c, f) && ConclusionOp(c, f).value in PlanFindings(d, fs).facts
  {
    var n, op := |fs| - 1, ConclusionOp(c, f).value;
    var before, last := fs[..n], fs[n];
    StepEffect(c, PlanFindings(c, before), last);
    StepEffect(d, PlanFindings(d, before), last);
    assert ConclusionOp(d, f) == ConclusionOp(c, f) && ConclusionOp(d, last) == ConclusionOp(c, last);
    if op in PlanFindings(c, before).facts {
      hide *;
      ResidenceComesBack(srv, now, c, d, all, before, f);
    } else {
      assert all[n] == last;
      SameConclusionSameFinding(c, all, last, f);
      ResidenceStatus(srv, now, c, d, f);
      if ConclusionKey(c.rules, f) in PlanFindings(d, before).seen {
        ResidenceKeySeen(srv, now, c, d, before, f);
      }
      hide PlanFindings, ConclusionKey, Concludable, MatchablePlace, Grown, ConclusionOp, FindingStep;
    }
  }

  lemma SameConclusionSameFinding(c: Ctx, fs: seq<Finding>, e: Finding, f: Finding)
    requires DistinctIds(fs) && e in fs && f in fs
    ensures ConclusionOp(c, e).Some? && ConclusionOp(c, e) == ConclusionOp(c, f) ==> e == f
  {
    if ConclusionOp(c, e).Some? && ConclusionOp(c, e) == ConclusionOp(c, f) {
      assert ConclusionOp(c, e).value.findingIds == [FindingId(e)];
      assert ConclusionOp(c, f).value.findingIds == [FindingId(f)];
      assert [FindingId(e)][0] == [FindingId(f)][0];
      SameIdSameFinding(fs, e, f);
    }
  }

  lemma UnnameableAttached(c: Ctx, g: Group)
    requires g.members != [] && !Nameable(c, g)
    ensures NeedsAttach(c, g)
  {
    hide FindDescription, AttachedIds, UrlSafe;
  }

  lemma {:induction false} PlannedFacts(c: Ctx, fs: seq<Finding>, op: Op)
    requires op in Operations(c, fs) && (op.opType == AddFact || op.opType == AddName)
    ensures op in PlanFindings(c, fs).facts
  {
    GroupsInhabited(fs);
    OperationTypes(c, fs);
    var s, p := PlanSources(c, GroupsOf(fs)), PlanFindings(c, fs);
    assert Operations(c, fs) == s.creates + s.attaches + p.notes + p.facts;
    hide *;
  }

  /** A group whose description cannot be named has its attachment in both plans. */
  lemma UnnameableInBoth(host: string, srv: Server, posts: seq<Post>, c: Ctx, d: Ctx, fs: seq<Finding>, g: Group)
    returns (op: Op)
    requires Ran(host, srv, posts, c, fs) && Later(srv, After(srv, posts), c, d)
    requires g in GroupsOf(fs) && g.members != [] && !Nameable(c, g)
    ensures op in Operations(d, fs) && op.id in OpIds(Operations(c, fs))
  {
    GroupsInhabited(fs);
    AttachBodiesAreUrls(host, srv, posts, c, fs);
    NewAttachmentsUrlSafe(host, srv, posts);
    UnnameableRepeats(srv, After(srv, posts), c, d, g);
    UnnameableAttached(c, g);
    SourceOps(d, GroupsOf(fs));
    SourceOps(c, GroupsOf(fs));
    op := AttachOp(d, g);
    assert op in Operations(d, fs) && AttachOp(c, g) in Operations(c, fs) && op.id == AttachOp(c, g).id;
    hide *;
    InOpIds(Operations(c, fs), AttachOp(c, g));
  }

  lemma InOpIds(ops: seq<Op>, op: Op)
    requires op in ops
    ensures op.id in OpIds(ops)
  {
    var i :| 0 <= i < |ops| && ops[i] == op;
    assert OpIds(ops)[i] == op.id;
  }

  lemma ResidenceInBoth(host: string, srv: Server, posts: seq<Post>, c: Ctx, d: Ctx, fs: seq<Finding>, f: Finding)
    returns (op: Op)
    requires Ran(host, srv, posts, c, fs) && Later(srv, After(srv, posts), c, d)
    requires f in fs && f.kind == Residence && Concluded(c, fs, f) && !MatchablePlace(c.rules, f)
    ensures op in Operations(d, fs) && op.id in OpIds(Operations(c, fs))
  {
    op := ConclusionOp(c, f).value;
    assert op.opType == AddFact;
    PlannedFacts(c, fs, op);
    ResidenceComesBack(srv, After(srv, posts), c, d, fs, fs, f);
    assert op in Operations(d, fs);
    InOpIds(Operations(c, fs), op);
  }

  /** What the later plan repeats when every description can be named: a residence the earlier plan added. */
  lemma {:induction false} RepeatIsResidence(host: string, srv: Server, posts: seq<Post>, c: Ctx, d: Ctx,
                                             fs: seq<Finding>, op: Op)
    requires Ran(host, srv, posts, c, fs) && Later(srv, After(srv, posts), c, d) && AllPosted(Operations(c, fs), posts)
    requires NoBadDeclaration(c, fs) && AllNameable(c, fs) && EmptyTextRules(c.rules)
    requires op in Operations(d, fs) && op.id in OpIds(Operations(c, fs))
    requires op.opType == AddFact || op.opType == AddName
    ensures exists f <- fs :: f.kind == Residence && Concluded(c, fs, f) && !MatchablePlace(c.rules, f)
  {
    var i :| 0 <= i < |Operations(c, fs)| && OpIds(Operations(c, fs))[i] == op.id;
    var first := Operations(c, fs)[i];
    assert first in Operations(c, fs) && PostedOk(first, posts);
    var k :| 0 <= k < |posts| && posts[k].op == first && TakesEffect(posts[k]);
    SameTypeAgain(c, d, fs, first, op);
    InOpIds(Operations(d, fs), op);
    ConclusionReturnsIff(host, srv, posts, c, d, fs, k);
    assert Returns(srv, After(srv, posts), c, fs, first);
    var f :| f in fs && ConclusionOp(c, f) == Some(first) && f.kind == Residence && !MatchablePlace(c.rules, f);
    assert Concluded(c, fs, f);
    hide *;
  }

  /** With conclusion writes on, planning again after a complete run repeats no fingerprint exactly when every
      description found for a group could be named and every residence the plan added can be compared. What it
      gives beyond repeated attachments are conclusions only. */
  lemma {:induction false} OnlyNewConclusions(host: string, srv: Server, posts: seq<Post>, c: Ctx, d: Ctx,
                                              fs: seq<Finding>)
    requires Ran(host, srv, posts, c, fs) && Later(srv, After(srv, posts), c, d) && AllPosted(Operations(c, fs), posts)
    requires NoBadDeclaration(c, fs) && EmptyTextRules(c.rules)
    ensures (forall op <- Operations(d, fs) :: op.id !in OpIds(Operations(c, fs)))
            <==> AllNameable(c, fs) && ResidencesMatchable(c, fs)
    ensures AllNameable(c, fs) ==> forall op <- Operations(d, fs) :: op.opType == AddFact || op.opType == AddName
  {
    hide Ran, Later, Operations, PlanFindings, Nameable, MatchablePlace, Concluded, AllPosted, EmptyTextRules;
    if AllNameable(c, fs) {
      ConclusionsOnly(host, srv, posts, c, d, fs);
      forall op <- Operations(d, fs) | op.id in OpIds(Operations(c, fs)) ensures !ResidencesMatchable(c, fs) {
        RepeatIsResidence(host, srv, posts, c, d, fs, op);
      }
      if f :| f in fs && f.kind == Residence && Concluded(c, fs, f) && !MatchablePlace(c.rules, f) {
        var op := ResidenceInBoth(host, srv, posts, c, d, fs, f);
      }
    } else {
      var g :| g in GroupsOf(fs) && !Nameable(c, g);
      var op := UnnameableInBoth(host, srv, posts, c, d, fs, g);
    }
  }

  lemma {:induction false} ConclusionsOnly(host: string, srv: Server, posts: seq<Post>, c: Ctx, d: Ctx,
                                           fs: seq<Finding>)
    requires Ran(host, srv, posts, c, fs) && Later(srv, After(srv, posts), c, d) && AllPosted(Operations(c, fs), posts)
    requires NoBadDeclaration(c, fs) && AllNameable(c, fs)
    ensures forall op <- Operations(d, fs) :: op.opType == AddFact || op.opType == AddName
  {
    SourcesDone(host, srv, posts, c, d, fs);
    NothingNoted(host, srv, posts, c, d, fs);
    OperationTypes(d, fs);
    assert forall op <- Operations(d, fs) :: op in PlanFindings(d, fs).facts;
  }

  // ----- from one call of buildPlan to the next --------------------------

  function CtxOf(r: Rules, raws: seq<RawFinding>, opts: Options, srv: Server, others: seq<Person>): Ctx {
    Ctx(r, srv.person.id, Read(srv, others), srv.person, opts)
  }

  function Accept(r: Rules, raws: seq<RawFinding>, opts: Options): seq<Finding> {
    TakeIn(r, opts.minConfidence, raws).accepted
  }

  /** `buildPlan` for the person the server holds. */
  function PlanNow(r: Rules, raws: seq<RawFinding>, opts: Options, srv: Server, others: seq<Person>): Outcome {
    PlanFor(r, srv.person.id, raws, Read(srv, others), opts)
  }

  function PlannedOps(out: Outcome): seq<Op> {
    if out.Planned? then out.plan.operations else []
  }

  /** The preconditions on the texts: no two groups of findings with one joined text (as when no finding id has a
      comma), nothing that looks like a reference. */
  ghost predicate GoodTexts(r: Rules, raws: seq<RawFinding>, opts: Options, srv: Server) {
    var fs := Accept(r, raws, opts);
    EmptyTextRules(r) && GroupsApart(fs) && Plain(srv.person.id) && forall f <- fs :: PlainFinding(f)
  }

  lemma {:induction false} PlanNowMeaning(r: Rules, raws: seq<RawFinding>, opts: Options, srv: Server,
                                          others: seq<Person>)
    ensures var out := PlanNow(r, raws, opts, srv, others);
      var c, fs := CtxOf(r, raws, opts, srv, others), Accept(r, raws, opts);
      if IsPossiblyLiving(r, srv.person, opts.nowYear) then PlannedOps(out) == [] && out.Planned?
      else (out.Planned? <==> NoBadDeclaration(c, fs)) && (out.Planned? ==> PlannedOps(out) == Operations(c, fs))
  {
    var c, fs := CtxOf(r, raws, opts, srv, others), Accept(r, raws, opts);
    GroupsInhabited(fs);
    assert FindPerson(Read(srv, others).persons, srv.person.id) == Some(srv.person);
    hide IsPossiblyLiving;
    hide TakeIn;
    hide Operations;
    hide BadDeclaration;
  }

  /** What `applyPlan` posts for the reviewed operations `planned`. */
  function PostsOf(r: Rules, raws: seq<RawFinding>, opts: Options, srv: Server, others: seq<Person>, s: Setting,
                   planned: seq<Op>, clock: int): seq<Post>
  {
    Execute(s, planned, PlannedOps(PlanNow(r, raws, opts, srv, others)), clock).posts
  }

  /** A run of `applyPlan` against the server, and what it leaves for the next plan. */
  lemma {:induction false} RunLeaves(r: Rules, raws: seq<RawFinding>, opts: Options, srv: Server, others: seq<Person>,
                                     s: Setting,
                  planned: seq<Op>, clock: int)
    requires GoodTexts(r, raws, opts, srv) && UrlSafeHost(s.host) && Filed(srv) && Keyed(planned) && clock > 0
    requires PlanNow(r, raws, opts, srv, others).Planned? && !IsPossiblyLiving(r, srv.person, opts.nowYear)
    requires FreshIds(srv, PostsOf(r, raws, opts, srv, others, s, planned, clock))
    ensures var posts := PostsOf(r, raws, opts, srv, others, s, planned, clock);
      var now := After(srv, posts);
      && Ran(s.host, srv, posts, CtxOf(r, raws, opts, srv, others), Accept(r, raws, opts))
      && Later(srv, now, CtxOf(r, raws, opts, srv, others), CtxOf(r, raws, opts, now, others))
  {
    hide Reviewed, Run, Operations, PlanNow, PlainOp, After, FreshIds, PlainBodies, DependencyPosted;
    var c, fs := CtxOf(r, raws, opts, srv, others), Accept(r, raws, opts);
    var current := PlannedOps(PlanNow(r, raws, opts, srv, others));
    var posts := Execute(s, planned, current, clock).posts;
    PlanNowMeaning(r, raws, opts, srv, others);
    AcceptedIdsDistinct(r, opts.minConfidence, raws);
    OperationIdsDistinct(c, fs);
    PlansArePlain(c, fs);
    ReviewedMeaning(current, planned);
    var at := SafeRun(s, planned, current, clock);
    BodiesPosted(s, Start(planned, current, clock), Reviewed(current, planned));
    RunGrows(srv, posts);
    var todo := Reviewed(current, planned);
    forall k | 0 <= k < |posts| ensures posts[k].op in current {
      assert posts[k].op == todo[at[k]];
    }
    hide Accept;
  }

  lemma NoOpsNoPosts(s: Setting, planned: seq<Op>, clock: int)
    ensures Execute(s, planned, [], clock).posts == []
  {
  }

  /** Re-running after any run, complete or halted: an operation that took effect, and any create that was posted, is
      in the next plan exactly when the person is not possibly living by then and the operation is one that returns. */
  lemma {:induction false} RerunRepeatsIff(r: Rules, raws: seq<RawFinding>, opts: Options, srv: Server,
                                           others: seq<Person>, s: Setting, planned: seq<Op>, clock: int, k: nat)
    requires GoodTexts(r, raws, opts, srv) && UrlSafeHost(s.host) && Filed(srv) && Keyed(planned) && clock > 0
    requires PlanNow(r, raws, opts, srv, others).Planned?
    requires var posts := PostsOf(r, raws, opts, srv, others, s, planned, clock);
      FreshIds(srv, posts) && k < |posts| && (TakesEffect(posts[k]) || posts[k].op.opType == CreateSource)
    ensures var posts := PostsOf(r, raws, opts, srv, others, s, planned, clock);
      var now := After(srv, posts);
      posts[k].op.id in OpIds(NextOps(r, raws, opts, srv, others, s, planned, clock))
      <==> && !IsPossiblyLiving(r, now.person, opts.nowYear)
           && Returns(srv, now, CtxOf(r, raws, opts, srv, others), Accept(r, raws, opts), posts[k].op)
  {
    var c, fs := CtxOf(r, raws, opts, srv, others), Accept(r, raws, opts);
    var posts := PostsOf(r, raws, opts, srv, others, s, planned, clock);
    var now := After(srv, posts);
    var d := CtxOf(r, raws, opts, now, others);
    PlanNowMeaning(r, raws, opts, srv, others);
    PlanNowMeaning(r, raws, opts, now, others);
    NoOpsNoPosts(s, planned, clock);
    SameDeclarations(c, d, fs);
    hide IsPossiblyLiving, PlanNow, Accept, Operations, After, Execute, GoodTexts, FreshIds, NoBadDeclaration;
    assert !IsPossiblyLiving(r, srv.person, opts.nowYear);
    RunLeaves(r, raws, opts, srv, others, s, planned, clock);
    assert EmptyTextRules(r) by { TextRules(r, raws, opts, srv); }
    hide PostsOf, Ran, Later, Returns;
    PostedReturnsIff(s.host, srv, posts, c, d, fs, k);
  }

  lemma TextRules(r: Rules, raws: seq<RawFinding>, opts: Options, srv: Server)
    requires GoodTexts(r, raws, opts, srv)
    ensures EmptyTextRules(r)
  {
  }

  lemma {:induction false} FactsOnlyFromFacts(srv: Server, posts: seq<Post>)
    requires forall k :: 0 <= k < |posts| ==> !posts[k].body.FactBody?
    ensures After(srv, posts).person.facts == srv.person.facts && After(srv, posts).person.living == srv.person.living
  {
    if posts != [] {
      FactsOnlyFromFacts(srv, posts[..|posts| - 1]);
    }
  }

  lemma {:induction false} NoFactsPosted(host: string, srv: Server, posts: seq<Post>, c: Ctx, fs: seq<Finding>)
    requires Ran(host, srv, posts, c, fs) && !c.opts.allowConclusions
    ensures forall k :: 0 <= k < |posts| ==> !posts[k].body.FactBody?
  {
    forall k | 0 <= k < |posts| ensures !posts[k].body.FactBody? {
      OperationOrigin(c, fs, posts[k].op);
    }
  }

  lemma {:induction false} StillNotLiving(host: string, r: Rules, srv: Server, posts: seq<Post>, c: Ctx,
                                          fs: seq<Finding>, nowYear: int)
    requires Ran(host, srv, posts, c, fs) && !c.opts.allowConclusions
    ensures IsPossiblyLiving(r, After(srv, posts).person, nowYear) == IsPossiblyLiving(r, srv.person, nowYear)
  {
    NoFactsPosted(host, srv, posts, c, fs);
    FactsOnlyFromFacts(srv, posts);
    hide Ran;
    hide After;
  }

  // ----- a posted birth ---------------------------------------------------

  ghost predicate RecentBirth(r: Rules, op: Op, nowYear: int) {
    && AddsFact(op, GX + "Birth") && YearOf(r, op.body.date).Some?
    && nowYear - YearOf(r, op.body.date).value < LIVING_WINDOW_YEARS
  }

  /** Carrying out the operations makes the person possibly living: they add a recent birth, and no death is known. */
  ghost predicate Revives(r: Rules, person: Person, ops: seq<Op>, nowYear: int) {
    && !HasFact(person, GX + "Death") && (forall op <- ops :: !AddsFact(op, GX + "Death"))
    && exists op <- ops :: RecentBirth(r, op, nowYear)
  }

  ghost predicate WritesFact(op: Op, x: Fact) {
    && op.opType == AddFact && op.body.FactBody?
    && x == Fact(Some(op.body.factType), None, op.body.date, op.body.place)
  }

  /** The person has the facts of before and those the operations add, and no others. */
  ghost predicate Recorded(before: Person, after: Person, ops: seq<Op>) {
    && before.living == after.living && before.facts <= after.facts
    && (forall x <- after.facts :: x in before.facts || exists op <- ops :: WritesFact(op, x))
    && (forall op <- ops, x :: WritesFact(op, x) ==> x in after.facts)
  }

  lemma {:induction false} FindBirthMeans(facts: seq<Fact>, more: seq<Fact>)
    requires facts <= more
    ensures FindBirth(facts).Some? <==> exists x <- facts :: x.factType == FactTypeOf(Birth)
    ensures FindBirth(facts).Some? ==>
      FindBirth(facts).value in facts && FindBirth(facts).value.factType == FactTypeOf(Birth)
    ensures FindBirth(facts).Some? ==> FindBirth(more) == FindBirth(facts)
  {
    hide FactTypeOf;
    if facts != [] {
      FindBirthMeans(facts[1..], more[1..]);
    }
  }

  lemma {:induction false} FactOrigin(srv: Server, posts: seq<Post>, x: Fact)
    requires x in After(srv, posts).person.facts && x !in srv.person.facts
    ensures exists p <- posts :: p.body.FactBody? && x == Fact(Some(p.body.factType), None, p.body.date, p.body.place)
  {
    hide DescriptionIdOf, TakesEffect, Created, DescriptionOf;
    var n := |posts| - 1;
    assert posts[n] in posts;
    if x in After(srv, posts[..n]).person.facts {
      FactOrigin(srv, posts[..n], x);
    }
  }

  lemma {:induction false} FactsAfter(host: string, srv: Server, posts: seq<Post>, c: Ctx, fs: seq<Finding>)
    requires Ran(host, srv, posts, c, fs) && AllPosted(Operations(c, fs), posts)
    ensures Recorded(srv.person, After(srv, posts).person, Operations(c, fs))
  {
    hide Operations;
    RunGrows(srv, posts);
    forall x <- After(srv, posts).person.facts | x !in srv.person.facts
      ensures exists op <- Operations(c, fs) :: WritesFact(op, x)
    {
      FactOrigin(srv, posts, x);
      var p :| p in posts && p.body.FactBody? && x == Fact(Some(p.body.factType), None, p.body.date, p.body.place);
      var k :| 0 <= k < |posts| && posts[k] == p;
      OperationOrigin(c, fs, p.op);
      assert p.body == p.op.body;
    }
    forall op <- Operations(c, fs), x | WritesFact(op, x) ensures x in After(srv, posts).person.facts {
      assert PostedOk(op, posts);
      var k :| 0 <= k < |posts| && posts[k].op == op && TakesEffect(posts[k]);
      assert posts[k].body == op.body;
      EffectLasts(srv, posts, k);
    }
    hide After, AttachedIds, FreshIds, NeedsAttach, NeedsCreate, Noted, Concludable;
  }

  lemma KnownAfter(before: Person, after: Person, ops: seq<Op>, factType: string)
    requires Recorded(before, after, ops)
    ensures HasFact(after, factType) <==> HasFact(before, factType) || exists op <- ops :: AddsFact(op, factType)
  {
    if HasFact(after, factType) {
      var x :| x in after.facts && x.factType == Some(factType);
      if x !in before.facts {
        var op :| op in ops && WritesFact(op, x);
        assert AddsFact(op, factType);
      }
    }
    if op :| op in ops && AddsFact(op, factType) {
      assert WritesFact(op, Fact(Some(op.body.factType), None, op.body.date, op.body.place));
    }
    forall x <- before.facts ensures x in after.facts {}
  }

  /** The birth found after a run that added one. */
  lemma BirthAfter(r: Rules, before: Person, after: Person, ops: seq<Op>, nowYear: int)
    requires Recorded(before, after, ops) && FindBirth(before.facts).None?
    requires forall x <- ops, y <- ops :: AddsFact(x, GX + "Birth") && AddsFact(y, GX + "Birth") ==> x == y
    ensures (exists op <- ops :: RecentBirth(r, op, nowYear))
      <==> var birth := FindBirth(after.facts);
           birth.Some? && birth.value.formal.None? && YearOf(r, birth.value.original).Some?
           && nowYear - YearOf(r, birth.value.original).value < LIVING_WINDOW_YEARS
    ensures FindBirth(after.facts).Some? ==> FindBirth(after.facts).value.formal.None?
  {
    FindBirthMeans(before.facts, after.facts);
    FindBirthMeans(after.facts, after.facts);
    var birth := FindBirth(after.facts);
    hide FindBirth;
    if birth.Some? {
      var op :| op in ops && WritesFact(op, birth.value);
      assert AddsFact(op, GX + "Birth");
    }
    if op :| op in ops && RecentBirth(r, op, nowYear) {
      assert WritesFact(op, Fact(Some(op.body.factType), None, op.body.date, op.body.place));
    }
  }

  /** A complete run makes a person possibly living exactly when the plan adds a recent birth and no death is known. */
  lemma {:induction false} LivingAfter(host: string, srv: Server, posts: seq<Post>, c: Ctx, fs: seq<Finding>,
                                       nowYear: int)
    requires Ran(host, srv, posts, c, fs) && AllPosted(Operations(c, fs), posts)
    requires !IsPossiblyLiving(c.rules, srv.person, nowYear)
    ensures IsPossiblyLiving(c.rules, After(srv, posts).person, nowYear)
            <==> Revives(c.rules, srv.person, Operations(c, fs), nowYear)
  {
    var before, after, ops := srv.person, After(srv, posts).person, Operations(c, fs);
    FactsAfter(host, srv, posts, c, fs);
    AtMostOneUniqueFact(c, fs, Birth);
    OneBirth(ops);
    KnownAfter(before, after, ops, GX + "Death");
    FindBirthMeans(before.facts, after.facts);
    assert FindBirth(before.facts).Some? <==> HasFact(before, GX + "Birth");
    if FindBirth(before.facts).None? {
      BirthAfter(c.rules, before, after, ops, nowYear);
    }
    hide Ran, Operations, After, AllPosted, FindBirth, HasFact, AddsFact, Recorded;
  }

  lemma OneBirth(ops: seq<Op>)
    requires forall i, j :: 0 <= i < j < |ops| ==> !(AddsFact(ops[i], GX + "Birth") && AddsFact(ops[j], GX + "Birth"))
    ensures forall x <- ops, y <- ops :: AddsFact(x, GX + "Birth") && AddsFact(y, GX + "Birth") ==> x == y
  {
    hide AddsFact;
  }

  lemma SameDeclarations(c: Ctx, d: Ctx, fs: seq<Finding>)
    requires c.opts == d.opts
    ensures NoBadDeclaration(c, fs) <==> NoBadDeclaration(d, fs)
  {
  }

  /** A call whose plan was carried out in full. */
  ghost predicate CompleteRun(r: Rules, raws: seq<RawFinding>, opts: Options, srv: Server, others: seq<Person>,
                              s: Setting, planned: seq<Op>, clock: int)
  {
    && GoodTexts(r, raws, opts, srv) && UrlSafeHost(s.host) && Filed(srv) && Keyed(planned) && clock > 0
    && PlanNow(r, raws, opts, srv, others).Planned? && !IsPossiblyLiving(r, srv.person, opts.nowYear)
    && FreshIds(srv, PostsOf(r, raws, opts, srv, others, s, planned, clock))
    && AllPosted(PlannedOps(PlanNow(r, raws, opts, srv, others)),
                 PostsOf(r, raws, opts, srv, others, s, planned, clock))
  }

  /** The next plan after a run. */
  function NextOps(r: Rules, raws: seq<RawFinding>, opts: Options, srv: Server, others: seq<Person>, s: Setting,
                   planned: seq<Op>, clock: int): seq<Op>
  {
    PlannedOps(PlanNow(r, raws, opts, After(srv, PostsOf(r, raws, opts, srv, others, s, planned, clock)), others))
  }

  /** Re-planning is a fixed point. With conclusion writes off, after a run in which every operation of the plan
      was posted, the next plan is empty exactly when every description the first plan found can be named. */
  lemma {:induction false} CompleteRunFixedPoint(r: Rules, raws: seq<RawFinding>, opts: Options, srv: Server,
                                                 others: seq<Person>,
                              s: Setting, planned: seq<Op>, clock: int)
    requires CompleteRun(r, raws, opts, srv, others, s, planned, clock) && !opts.allowConclusions
    ensures NextOps(r, raws, opts, srv, others, s, planned, clock) == []
            <==> AllNameable(CtxOf(r, raws, opts, srv, others), Accept(r, raws, opts))
  {
    var c, fs := CtxOf(r, raws, opts, srv, others), Accept(r, raws, opts);
    var posts := PostsOf(r, raws, opts, srv, others, s, planned, clock);
    var now := After(srv, posts);
    var d := CtxOf(r, raws, opts, now, others);
    PlanNowMeaning(r, raws, opts, srv, others);
    PlanNowMeaning(r, raws, opts, now, others);
    RunLeaves(r, raws, opts, srv, others, s, planned, clock);
    SameDeclarations(c, d, fs);
    hide IsPossiblyLiving;
    hide PlanNow;
    hide PostsOf;
    hide Accept;
    hide Operations;
    hide After;
    hide GoodTexts;
    hide FreshIds;
    hide AllNameable;
    hide NoBadDeclaration;
    hide Ran;
    hide Later;
    hide AllPosted;
    StillNotLiving(s.host, r, srv, posts, c, fs, opts.nowYear);
    FixedPoint(s.host, srv, posts, c, d, fs);
  }

  /** With conclusion writes on, the plan after a complete run repeats no fingerprint of the first exactly when every
      description found could be named and every residence the first plan added can be compared, or the run added a
      recent birth and the person now counts as possibly living. Unless a description could not be named, all it holds
      are conclusions. */
  lemma {:induction false} CompleteRunRepeatsNoFingerprint(r: Rules, raws: seq<RawFinding>, opts: Options, srv: Server,
                                        others: seq<Person>, s: Setting, planned: seq<Op>, clock: int)
    requires CompleteRun(r, raws, opts, srv, others, s, planned, clock)
    ensures var c, fs, first := CtxOf(r, raws, opts, srv, others), Accept(r, raws, opts),
                                PlannedOps(PlanNow(r, raws, opts, srv, others));
      (forall op <- NextOps(r, raws, opts, srv, others, s, planned, clock) :: op.id !in OpIds(first))
      <==> (AllNameable(c, fs) && ResidencesMatchable(c, fs)) || Revives(r, srv.person, first, opts.nowYear)
    ensures AllNameable(CtxOf(r, raws, opts, srv, others), Accept(r, raws, opts)) ==>
      forall op <- NextOps(r, raws, opts, srv, others, s, planned, clock) ::
        op.opType == AddFact || op.opType == AddName
  {
    var c, fs := CtxOf(r, raws, opts, srv, others), Accept(r, raws, opts);
    var posts := PostsOf(r, raws, opts, srv, others, s, planned, clock);
    var now := After(srv, posts);
    var d := CtxOf(r, raws, opts, now, others);
    PlanNowMeaning(r, raws, opts, srv, others);
    PlanNowMeaning(r, raws, opts, now, others);
    RunLeaves(r, raws, opts, srv, others, s, planned, clock);
    SameDeclarations(c, d, fs);
    TextRules(r, raws, opts, srv);
    hide IsPossiblyLiving, PlanNow, PostsOf, Accept, Operations, After, GoodTexts, FreshIds, AllNameable,
         NoBadDeclaration, Ran, Later, AllPosted, ResidencesMatchable, Revives;
    LivingAfter(s.host, srv, posts, c, fs, opts.nowYear);
    OnlyNewConclusions(s.host, srv, posts, c, d, fs);
  }

  // ----- a residence that comes back --------------------------------------

  function NowhereResidence(): Finding {
    Finding(Residence, "v", None, Some("?"), None, "t", "x", "1", 0.9, "n")
  }

  function AddNowhere(pid: string): Op {
    Op(OpKey(AddFact, ["x/1"]), AddFact, ["x/1"], None, None, FactBody(pid, GX + "Residence", None, Some("?")))
  }

  lemma NowhereIsUnmatchable(r: Rules)
    requires r.norm("?") == "" && !r.blank("?")
    ensures !MatchablePlace(r, NowhereResidence())
  {
    SplitPlain("?", ',');
    assert ["?"][1..] == [] && NormedParts(r, []) == [];
    assert NormedParts(r, ["?"]) == [];
    assert NowhereResidence().place.GetOr("") == "?";
  }

  /** A plan adds it to anybody, whatever facts the person has. */
  lemma {:induction false} NowhereIsPlanned(c: Ctx)
    requires c.rules.norm("?") == "" && !c.rules.blank("?") && c.opts.allowConclusions
    ensures AddNowhere(c.pid) in Operations(c, [NowhereResidence()])
  {
    var f := NowhereResidence();
    NowhereIsUnmatchable(c.rules);
    forall x <- c.person.facts ensures !FactMatches(c.rules, x, f, IsUnique(f.kind)) {
      UnmatchablePlaceNeverAgrees(c.rules, x, f);
    }
    hide FactMatches, MatchablePlace;
    assert Concludable(c, f);
    assert FindingId(f) == "x/1" && ConclusionOp(c, f) == Some(AddNowhere(c.pid));
    assert [f][..0] == [];
    StepEffect(c, PlanFindings(c, []), f);
    assert AddNowhere(c.pid) in PlanFindings(c, [f]).facts by { hide ConclusionKey, FindingStep; }
    hide *;
    GroupsInhabited([f]);
    FactInPlan(c, [f], AddNowhere(c.pid));
  }

  lemma FactInPlan(c: Ctx, fs: seq<Finding>, op: Op)
    requires op in PlanFindings(c, fs).facts
    ensures op in Operations(c, fs)
  {
    hide PlanFindings, PlanSources, GroupsOf;
  }

  /** `buildPlan` adds a residence at "?", of which no part survives normalisation, and adds it again after it was
      stored. */
  lemma {:induction false} UnmatchableResidenceRepeats(r: Rules, opts: Options, srv: Server, others: seq<Person>,
                                                       p: Post)
    requires r.norm("?") == "" && !r.blank("?") && (forall t <- ["v", "t", "x", "1", "n"] :: !r.blank(t))
    requires opts.allowConclusions && opts.existingSources == map[] && opts.minConfidence <= 0.9
    requires !IsPossiblyLiving(r, srv.person, opts.nowYear)
    requires p.op == AddNowhere(srv.person.id) && p.body == p.op.body && TakesEffect(p)
    ensures var raws := RawsOf([NowhereResidence()]);
      && p.op in PlannedOps(PlanNow(r, raws, opts, srv, others))
      && p.op in PlannedOps(PlanNow(r, raws, opts, Store(srv, p), others))
  {
    var raws, later := RawsOf([NowhereResidence()]), Store(srv, p);
    NowhereAccepted(r, opts.minConfidence);
    ResidenceKeepsLiving(r, srv.person, later.person, opts.nowYear);
    assert FindPerson(Read(srv, others).persons, srv.person.id) == Some(srv.person);
    assert FindPerson(Read(later, others).persons, srv.person.id) == Some(later.person);
    PlanWithoutDeclarations(r, srv.person.id, raws, Read(srv, others), opts);
    PlanWithoutDeclarations(r, srv.person.id, raws, Read(later, others), opts);
    NowhereIsPlanned(Ctx(r, srv.person.id, Read(srv, others), srv.person, opts));
    NowhereIsPlanned(Ctx(r, srv.person.id, Read(later, others), later.person, opts));
    hide Operations, TakeIn, IsPossiblyLiving, AddNowhere, FindPerson, PlanFor;
  }

  lemma NowhereAccepted(r: Rules, minConfidence: real)
    requires (forall t <- ["v", "t", "x", "1", "n"] :: !r.blank(t)) && minConfidence <= 0.9
    ensures TakeIn(r, minConfidence, RawsOf([NowhereResidence()])).accepted == [NowhereResidence()]
  {
    var texts := ["v", "t", "x", "1", "n"];
    assert !r.blank(texts[0]) && !r.blank(texts[1]) && !r.blank(texts[2]) && !r.blank(texts[3]) && !r.blank(texts[4]);
    SpelledAreAccepted(r, minConfidence, [NowhereResidence()]);
  }

  /** One more residence does not change whether a person is possibly living. */
  lemma ResidenceKeepsLiving(r: Rules, before: Person, after: Person, nowYear: int)
    requires |after.facts| == |before.facts| + 1 && before.facts <= after.facts && before.living == after.living
    requires after.facts[|before.facts|].factType == Some(GX + "Residence")
    ensures IsPossiblyLiving(r, before, nowYear) == IsPossiblyLiving(r, after, nowYear)
  {
    FactTypesDiffer();
    assert FactTypeOf(Residence).Some? && FactTypeOf(Birth).Some? && FactTypeOf(Death).Some?;
    FindBirthMeans(before.facts, after.facts);
    FindBirthMeans(after.facts, after.facts);
    forall x <- after.facts ensures x in before.facts || x.factType == FactTypeOf(Residence) {
      var i :| 0 <= i < |after.facts| && after.facts[i] == x;
      assert i < |before.facts| ==> before.facts[i] == x;
    }
    forall x <- before.facts ensures x in after.facts {}
    assert HasFact(before, GX + "Death") == HasFact(after, GX + "Death");
    hide FindBirth, HasFact;
  }
}
