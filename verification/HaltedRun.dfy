/** A run that halts between creating a description and attaching it (writeApply.ts:25-31), and the plan after it. */
module HaltedRun {
  import opened Strings
  import opened Gedcomx
  import opened OpKeys
  import opened WriteFindings
  import opened WritePlan
  import opened PlanProperties
  import opened WriteApply
  import opened ApplyProperties
  import opened TreeServer
  import opened Replan

  /** A run in which no attachment took effect lists nothing new. */
  lemma {:induction false} NothingAttached(srv: Server, posts: seq<Post>)
    requires forall k :: 0 <= k < |posts| && posts[k].body.AttachBody? ==> !TakesEffect(posts[k])
    ensures After(srv, posts).descriptions == srv.descriptions
  {
    if posts != [] {
      NothingAttached(srv, posts[..|posts| - 1]);
    }
  }

  /** So after such a run every description it created is created again, unless the run made the person possibly
      living. */
  lemma {:induction false} UnattachedReturns(r: Rules, raws: seq<RawFinding>, opts: Options, srv: Server,
                                             others: seq<Person>, s: Setting, planned: seq<Op>, clock: int, k: nat)
    requires GoodTexts(r, raws, opts, srv) && UrlSafeHost(s.host) && Filed(srv) && Keyed(planned) && clock > 0
    requires PlanNow(r, raws, opts, srv, others).Planned?
    requires var posts := PostsOf(r, raws, opts, srv, others, s, planned, clock);
      && FreshIds(srv, posts) && k < |posts| && posts[k].op.opType == CreateSource
      && (forall j :: 0 <= j < |posts| && posts[j].body.AttachBody? ==> !TakesEffect(posts[j]))
    ensures var posts := PostsOf(r, raws, opts, srv, others, s, planned, clock);
      posts[k].op.id in OpIds(NextOps(r, raws, opts, srv, others, s, planned, clock))
      <==> !IsPossiblyLiving(r, After(srv, posts).person, opts.nowYear)
  {
    var c, fs := CtxOf(r, raws, opts, srv, others), Accept(r, raws, opts);
    var posts := PostsOf(r, raws, opts, srv, others, s, planned, clock);
    RerunRepeatsIff(r, raws, opts, srv, others, s, planned, clock, k);
    NothingAttached(srv, posts);
    PlanNowMeaning(r, raws, opts, srv, others);
    NoOpsNoPosts(s, planned, clock);
    hide IsPossiblyLiving, PlanNow, Accept, Operations, After, Execute, GoodTexts, FreshIds, NoBadDeclaration, Nameable;
    assert !IsPossiblyLiving(r, srv.person, opts.nowYear);
    RunLeaves(r, raws, opts, srv, others, s, planned, clock);
    hide PostsOf;
    CreateOrigin(s.host, srv, posts, c, fs, k);
    assert Returns(srv, After(srv, posts), c, fs, posts[k].op);
  }

  lemma {:induction false} CreateOrigin(host: string, srv: Server, posts: seq<Post>, c: Ctx, fs: seq<Finding>, k: nat)
    requires Ran(host, srv, posts, c, fs) && k < |posts| && posts[k].op.opType == CreateSource
    ensures exists g <- GroupsOf(fs) :: g.members != [] && NeedsCreate(c, g) && posts[k].op == CreateOp(c, g)
  {
    OperationOrigin(c, fs, posts[k].op);
    hide Operations, CreateOp, NeedsCreate, GroupsOf;
  }

  // ----- an example ------------------------------------------------------

  function Unlisted(): Finding {
    Finding(Relationship, "v", None, None, None, "t", "x", "1", 0.9, "n")
  }

  /** The create is confirmed and answered with an id, the attachment is confirmed and rejected. */
  predicate RejectsAttachment(w: World) {
    && w.confirm(0) == w.confirm(1) == Approves
    && w.respond(0) == Accepted(None, Some("d")) && w.respond(1) == Rejected(false)
  }

  /** The plan starts with a create and the attachment that depends on it. */
  ghost predicate StartsWithSource(ops: seq<Op>) {
    && |ops| >= 2 && PlainOp(ops[0]) && PlainOp(ops[1])
    && ops[0].opType == CreateSource && ops[0].dependsOn == None && ops[0].body.SourceBody?
    && ops[1].opType == AttachSource && ops[1].dependsOn == Some(ops[0].id)
  }

  /** The create is posted and accepted, the attachment posted and rejected, nothing else posted. */
  ghost predicate CreatedNotAttached(posts: seq<Post>, ops: seq<Op>)
    requires |ops| >= 2
  {
    && |posts| == 2 && posts[0].op == ops[0] && posts[1].op == ops[1]
    && posts[0].body == ops[0].body && posts[0].response == Accepted(None, Some("d"))
    && posts[1].response == Rejected(false)
  }

  lemma {:induction false} HaltsAtAttachment(s: Setting, start: Exec, ops: seq<Op>)
    requires RejectsAttachment(s.world) && StartsWithSource(ops)
    requires !start.halted && start.created == map[] && start.posts == []
    ensures Run(s, start, ops).halted && CreatedNotAttached(Run(s, start, ops).posts, ops)
  {
    var n := |ops| - 1;
    if n == 1 {
      TwoSteps(s, start, ops);
      CreateStep(s, start, ops[0]);
      AttachStep(s, Step(s, start, ops[0], 0), ops[1]);
    } else {
      HaltsAtAttachment(s, start, ops[..n]);
    }
    hide StartTime, ResolveRefs, PlainOp, RejectsAttachment, PostStep;
  }

  lemma TwoSteps(s: Setting, start: Exec, ops: seq<Op>)
    requires |ops| == 2
    ensures Run(s, start, ops) == Step(s, Step(s, start, ops[0], 0), ops[1], 1)
  {
    assert ops[..1][..0] == [];
    assert Run(s, start, ops[..1]) == Step(s, start, ops[0], 0);
    hide Step;
  }

  lemma CreateStep(s: Setting, x: Exec, op: Op)
    requires RejectsAttachment(s.world) && !x.halted && x.created == map[] && x.posts == []
    requires PlainOp(op) && op.opType == CreateSource && op.dependsOn == None && op.body.SourceBody?
    ensures var y := Step(s, x, op, 0);
      && !y.halted && |y.posts| == 1 && y.posts[0].op == op && y.posts[0].body == op.body
      && y.posts[0].response == Accepted(None, Some("d")) && y.created == map[op.id := DescriptionUrl(s.host, "d")]
  {
    PlainOpsResolve(op, x.created, s.host);
    hide ResolveRefs, StartTime, PlainOp, DescriptionUrl;
  }

  lemma AttachStep(s: Setting, x: Exec, op: Op)
    requires RejectsAttachment(s.world) && !x.halted && PlainOp(op) && op.dependsOn.Some?
      && op.dependsOn.value in x.created
    requires forall id <- x.created :: x.created[id] != ""
    ensures var y := Step(s, x, op, 1);
      && y.halted && |y.posts| == |x.posts| + 1 && y.posts[..|x.posts|] == x.posts
      && y.posts[|x.posts|].op == op && y.posts[|x.posts|].response == Rejected(false)
  {
    PlainOpsResolve(op, x.created, s.host);
    hide ResolveRefs, StartTime, PlainOp;
  }

  /** A plan that was just made is reviewed as a whole. */
  lemma {:induction false} AllReviewed(ops: seq<Op>, planned: seq<Op>)
    requires forall op <- ops :: op in planned
    ensures Reviewed(ops, planned) == ops
  {
    hide Fingerprint;
    if ops != [] {
      AllReviewed(ops[..|ops| - 1], planned);
      assert ops[|ops| - 1] in planned;
    }
  }

  lemma {:induction false} UnlistedPlan(c: Ctx)
    requires c.opts.existingSources == map[] && c.doc.descriptions == [] && Plain(c.pid)
    ensures StartsWithSource(Operations(c, [Unlisted()]))
    ensures PlainFinding(Unlisted()) && GroupsApart([Unlisted()])
  {
    var f := Unlisted();
    var g := Group(SourceKey(f), [f]);
    UnlistedTexts();
    PlansArePlain(c, [f]);
    assert [f][..0] == [];
    assert GroupsOf([f]) == AddToGroups([], f) == [g];
    OneGroupSources(c, g);
    hide *;
    PlanParts(c, [f], g);
  }

  lemma OneGroupSources(c: Ctx, g: Group)
    requires g.members != [] && c.opts.existingSources == map[] && c.doc.descriptions == []
    ensures NeedsCreate(c, g)
    ensures PlanSources(c, [g]).creates == [CreateOp(c, g)] && PlanSources(c, [g]).attaches == [AttachOp(c, g)]
  {
    assert NeedsCreate(c, g) && NeedsAttach(c, g);
    assert [g][..0] == [];
    hide NeedsCreate, NeedsAttach, CreateOp, AttachOp;
    var s := PlanSources(c, []);
    assert PlanSources(c, [g]) == SourceStep(c, s, g);
  }

  lemma PlanParts(c: Ctx, fs: seq<Finding>, g: Group)
    requires GroupsOf(fs) == [g] && g.members != [] && NeedsCreate(c, g)
    requires PlanSources(c, [g]).creates == [CreateOp(c, g)] && PlanSources(c, [g]).attaches == [AttachOp(c, g)]
    requires forall op <- Operations(c, fs) :: PlainOp(op)
    ensures StartsWithSource(Operations(c, fs))
  {
    var ops := Operations(c, fs);
    hide PlanSources, PlanFindings, GroupsOf, NeedsCreate, PlainOp;
    assert ops[0] == CreateOp(c, g) && ops[1] == AttachOp(c, g);
    assert PlainOp(ops[0]) && PlainOp(ops[1]);
  }

  lemma UnlistedTexts()
    ensures PlainFinding(Unlisted()) && GroupsApart([Unlisted()]) && DistinctIds([Unlisted()])
  {
    IdsAt([Unlisted()], 0);
    assert FindingId(Unlisted()) == "x/1";
    assert forall id <- Ids([Unlisted()]) :: id == "x/1";
    CommaFreeApart([Unlisted()]);
  }

  lemma UnlistedAccepted(r: Rules, minConfidence: real)
    requires (forall t <- ["v", "t", "x", "1", "n"] :: !r.blank(t)) && minConfidence <= 0.9
    ensures TakeIn(r, minConfidence, RawsOf([Unlisted()])).accepted == [Unlisted()]
  {
    var texts := ["v", "t", "x", "1", "n"];
    assert !r.blank(texts[0]) && !r.blank(texts[1]) && !r.blank(texts[2]) && !r.blank(texts[3]) && !r.blank(texts[4]);
    UnlistedTexts();
    SpelledAreAccepted(r, minConfidence, [Unlisted()]);
  }

  /** A run over the plan of one finding, against a server that lists no description: the create is accepted, its
      attachment is rejected, the run halts, and the next plan creates the same description again. */
  lemma {:induction false} HaltedRunCreatesAgain(r: Rules, opts: Options, srv: Server, others: seq<Person>, s: Setting,
                                                 clock: int)
    requires EmptyTextRules(r) && (forall t <- ["v", "t", "x", "1", "n"] :: !r.blank(t))
    requires opts.existingSources == map[] && opts.minConfidence <= 0.9
    requires srv.descriptions == [] && Filed(srv) && "d" !in srv.hidden && Plain(srv.person.id)
    requires !IsPossiblyLiving(r, srv.person, opts.nowYear)
    requires UrlSafeHost(s.host) && RejectsAttachment(s.world) && clock > 0
    ensures var raws := RawsOf([Unlisted()]);
      var first := PlannedOps(PlanNow(r, raws, opts, srv, others));
      var posts := PostsOf(r, raws, opts, srv, others, s, first, clock);
      && |first| >= 2 && CreatedNotAttached(posts, first)
      && first[0].opType == CreateSource && first[1].opType == AttachSource
      && first[0].id in OpIds(NextOps(r, raws, opts, srv, others, s, first, clock))
  {
    hide *;
    var raws := RawsOf([Unlisted()]);
    var first := PlannedOps(PlanNow(r, raws, opts, srv, others));
    FirstPlan(r, opts, srv, others);
    FirstPosts(r, raws, opts, srv, others, s, clock);
    var posts := PostsOf(r, raws, opts, srv, others, s, first, clock);
    OneFreshId(srv, posts, first);
    TypesAre(first, posts);
    UnattachedReturns(r, raws, opts, srv, others, s, first, clock, 0);
  }

  lemma TypesAre(ops: seq<Op>, posts: seq<Post>)
    requires StartsWithSource(ops)
    ensures |ops| >= 2 && ops[0].opType == CreateSource && ops[1].opType == AttachSource
    ensures CreatedNotAttached(posts, ops) ==> |posts| == 2 && posts[0].op == ops[0]
  {
    hide PlainOp;
  }

  lemma {:induction false} FirstPlan(r: Rules, opts: Options, srv: Server, others: seq<Person>)
    requires EmptyTextRules(r) && (forall t <- ["v", "t", "x", "1", "n"] :: !r.blank(t))
    requires opts.existingSources == map[] && opts.minConfidence <= 0.9
    requires srv.descriptions == [] && Plain(srv.person.id) && !IsPossiblyLiving(r, srv.person, opts.nowYear)
    ensures var out := PlanNow(r, RawsOf([Unlisted()]), opts, srv, others);
      out.Planned? && StartsWithSource(PlannedOps(out)) && Keyed(PlannedOps(out))
    ensures GoodTexts(r, RawsOf([Unlisted()]), opts, srv)
  {
    var raws, c, fs := RawsOf([Unlisted()]), CtxOf(r, RawsOf([Unlisted()]), opts, srv, others), [Unlisted()];
    assert FindPerson(Read(srv, others).persons, srv.person.id) == Some(srv.person);
    hide Operations, TakeIn, IsPossiblyLiving, FindPerson, PlanFor, Unlisted, Ids, PlainFinding, GroupsApart, PlainOp,
         RawsOf, DistinctIds, DistinctOps, StartsWithSource, GroupsOf, TextsApart, Plain, EmptyTextRules;
    UnlistedAccepted(r, opts.minConfidence);
    UnlistedPlan(c);
    PlanWithoutDeclarations(r, srv.person.id, raws, Read(srv, others), opts);
    UnlistedTexts();
    OperationIdsDistinct(c, fs);
  }

  lemma {:induction false} FirstPosts(r: Rules, raws: seq<RawFinding>, opts: Options, srv: Server, others: seq<Person>,
                                      s: Setting, clock: int)
    requires RejectsAttachment(s.world) && StartsWithSource(PlannedOps(PlanNow(r, raws, opts, srv, others)))
    ensures var first := PlannedOps(PlanNow(r, raws, opts, srv, others));
      |first| >= 2 && CreatedNotAttached(PostsOf(r, raws, opts, srv, others, s, first, clock), first)
  {
    var first := PlannedOps(PlanNow(r, raws, opts, srv, others));
    hide PlanNow, PlannedOps, StaleResults, Run, Reviewed, PlainOp, RejectsAttachment, CreatedNotAttached;
    AllReviewed(first, first);
    HaltsAtAttachment(s, Start(first, first, clock), first);
  }

  lemma OneFreshId(srv: Server, posts: seq<Post>, ops: seq<Op>)
    requires StartsWithSource(ops) && CreatedNotAttached(posts, ops) && "d" !in srv.hidden
    ensures FreshIds(srv, posts) && After(srv, posts).person == srv.person
    ensures forall j :: 0 <= j < |posts| && posts[j].body.AttachBody? ==> !TakesEffect(posts[j])
  {
    assert posts[..0] == [];
    assert posts[..1][..0] == [];
    assert After(srv, posts[..1]).person == srv.person;
    hide PlainOp, DescriptionIdOf;
  }
}
