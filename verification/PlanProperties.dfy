/** Every plan is well formed: what `buildPlan` guarantees about one plan. */
module PlanProperties {
  import opened Strings
  import opened Gedcomx
  import opened OpKeys
  import opened WriteFindings
  import opened WritePlan

  // ----- intake: accepted and dropped findings partition the input -------

  ghost predicate Keeps(r: Rules, minConfidence: real, raws: seq<RawFinding>, i: nat)
    requires i < |raws|
  {
    && FindingProblem(r, raws[i], minConfidence) == None
    && forall j :: 0 <= j < i ==> SafeFindingId(raws[j]) != SafeFindingId(raws[i])
  }

  ghost predicate Increasing(xs: seq<nat>) {
    forall i, j :: 0 <= i < j < |xs| ==> xs[i] < xs[j]
  }

  ghost predicate Below(xs: seq<nat>, n: nat) {
    forall i :: 0 <= i < |xs| ==> xs[i] < n
  }

  lemma {:induction false} SeenIds(r: Rules, minConfidence: real, raws: seq<RawFinding>)
    ensures forall id :: id in TakeIn(r, minConfidence, raws).seen <==>
                         exists i :: 0 <= i < |raws| && SafeFindingId(raws[i]) == id
  {
    hide FindingProblem;
    hide ToFinding;
    hide SafeFindingId;
    if raws != [] {
      var n := |raws| - 1;
      var before := raws[..n];
      SeenIds(r, minConfidence, before);
      forall id | exists i :: 0 <= i < |raws| && SafeFindingId(raws[i]) == id
        ensures id in TakeIn(r, minConfidence, raws).seen
      {
        var i :| 0 <= i < |raws| && SafeFindingId(raws[i]) == id;
        assert i < n ==> before[i] == raws[i];
      }
      forall i | 0 <= i < n ensures before[i] == raws[i] {}
    }
  }

  lemma {:induction false} IntakeLast(r: Rules, minConfidence: real, raws: seq<RawFinding>)
    requires raws != []
    ensures var n := |raws| - 1;
      var s, t := TakeIn(r, minConfidence, raws[..n]), TakeIn(r, minConfidence, raws);
      var problem := FindingProblem(r, raws[n], minConfidence);
      if Keeps(r, minConfidence, raws, n) then
        t.accepted == s.accepted + [ToFinding(r, raws[n], minConfidence)] && t.dropped == s.dropped
      else
        t.accepted == s.accepted && t.dropped == s.dropped + [Drop(SafeFindingId(raws[n]), problem.GetOr(DuplicateId))]
  {
    hide FindingProblem;
    hide ToFinding;
    hide SafeFindingId;
    var n := |raws| - 1;
    SeenIds(r, minConfidence, raws[..n]);
    var id := SafeFindingId(raws[n]);
    if id in TakeIn(r, minConfidence, raws[..n]).seen {
      var i :| 0 <= i < n && SafeFindingId(raws[..n][i]) == id;
      assert SafeFindingId(raws[i]) == id;
    } else {
      forall j | 0 <= j < n ensures SafeFindingId(raws[j]) != id {
        assert raws[..n][j] == raws[j];
      }
    }
  }

  /** The accepted findings are, in order, the valid ones whose id no earlier finding had (valid or not); all
      others are dropped, in order, each with its own problem or as a duplicate. */
  lemma {:induction false} IntakePartition(r: Rules, minConfidence: real, raws: seq<RawFinding>)
    returns (kept: seq<nat>, lost: seq<nat>)
    ensures Increasing(kept) && Below(kept, |raws|) && Increasing(lost) && Below(lost, |raws|)
    ensures forall i: nat :: i < |raws| ==> (i in kept <==> Keeps(r, minConfidence, raws, i))
    ensures forall i: nat :: i < |raws| ==> (i in lost <==> !Keeps(r, minConfidence, raws, i))
    ensures |TakeIn(r, minConfidence, raws).accepted| == |kept| && |TakeIn(r, minConfidence, raws).dropped| == |lost|
    ensures forall k :: 0 <= k < |kept| ==>
      FindingProblem(r, raws[kept[k]], minConfidence) == None
      && TakeIn(r, minConfidence, raws).accepted[k] == ToFinding(r, raws[kept[k]], minConfidence)
    ensures forall k :: 0 <= k < |lost| ==>
      TakeIn(r, minConfidence, raws).dropped[k]
      == Drop(SafeFindingId(raws[lost[k]]), FindingProblem(r, raws[lost[k]], minConfidence).GetOr(DuplicateId))
  {
    hide FindingProblem;
    hide ToFinding;
    hide SafeFindingId;
    hide IntakeStep;
    if raws == [] {
      return [], [];
    }
    var n := |raws| - 1;
    var before := raws[..n];
    kept, lost := IntakePartition(r, minConfidence, before);
    IntakeLast(r, minConfidence, raws);
    forall i: nat | i < n ensures Keeps(r, minConfidence, raws, i) <==> Keeps(r, minConfidence, before, i) {
      assert forall j :: 0 <= j <= i ==> before[j] == raws[j];
    }
    hide TakeIn;
    hide Keeps;
    if Keeps(r, minConfidence, raws, n) {
      kept := kept + [n];
    } else {
      lost := lost + [n];
    }
  }

  ghost predicate DistinctIds(fs: seq<Finding>) {
    Distinct(Ids(fs))
  }

  lemma {:induction false} IdsAt(fs: seq<Finding>, k: nat)
    requires k < |fs|
    ensures Ids(fs)[k] == FindingId(fs[k])
  {
    if k > 0 {
      IdsAt(fs[1..], k - 1);
    }
  }

  lemma IdsMembers(fs: seq<Finding>)
    ensures forall id <- Ids(fs) :: exists f <- fs :: FindingId(f) == id
    ensures forall f <- fs :: FindingId(f) in Ids(fs)
  {
    forall id <- Ids(fs) ensures exists f <- fs :: FindingId(f) == id {
      var k :| 0 <= k < |fs| && Ids(fs)[k] == id;
      IdsAt(fs, k);
    }
    forall f <- fs ensures FindingId(f) in Ids(fs) {
      var k :| 0 <= k < |fs| && fs[k] == f;
      IdsAt(fs, k);
    }
  }

  lemma SameIdSameFinding(fs: seq<Finding>, f: Finding, g: Finding)
    requires DistinctIds(fs) && f in fs && g in fs && FindingId(f) == FindingId(g)
    ensures f == g
  {
    var i :| 0 <= i < |fs| && fs[i] == f;
    var j :| 0 <= j < |fs| && fs[j] == g;
    IdsAt(fs, i);
    IdsAt(fs, j);
    assert Ids(fs)[i] == Ids(fs)[j];
  }

  /** No id is accepted twice. */
  lemma AcceptedIdsDistinct(r: Rules, minConfidence: real, raws: seq<RawFinding>)
    ensures DistinctIds(TakeIn(r, minConfidence, raws).accepted)
  {
    var kept, lost := IntakePartition(r, minConfidence, raws);
    var fs := TakeIn(r, minConfidence, raws).accepted;
    forall i, j | 0 <= i < j < |Ids(fs)| ensures Ids(fs)[i] != Ids(fs)[j] {
      IdsAt(fs, i);
      IdsAt(fs, j);
      hide FindingProblem;
      hide ToFinding;
      assert kept[j] in kept && Keeps(r, minConfidence, raws, kept[j]);
    }
  }

  // ----- findings as they are spelled in the input ------------------------

  function AsField(t: Option<string>): Field {
    if t.Some? then Str(t.value) else Undefined
  }

  /** The JSON object that spells a finding. */
  function RawOf(f: Finding): RawFinding {
    Raw(Str(KindName(f.kind)), Str(f.value), AsField(f.date), AsField(f.place), AsField(f.sourceUrl),
      Str(f.sourceTitle),
        Str(f.sourceId), Str(f.factId), Num(f.confidence, true, ""), Str(f.note))
  }

  function RawsOf(fs: seq<Finding>): (raws: seq<RawFinding>)
    ensures |raws| == |fs| && forall i :: 0 <= i < |fs| ==> raws[i] == RawOf(fs[i])
  {
    seq(|fs|, i requires 0 <= i < |fs| => RawOf(fs[i]))
  }

  predicate Acceptable(r: Rules, minConfidence: real, f: Finding) {
    && !r.blank(f.sourceId) && !r.blank(f.factId) && !r.blank(f.sourceTitle) && !r.blank(f.value) && !r.blank(f.note)
    && 0.0 <= f.confidence <= 1.0 && f.confidence >= minConfidence
  }

  lemma KindRoundTrip(k: Kind)
    ensures KindOf(KindName(k)) == Some(k)
  {
    assert |KindName(NameVariant)| == 12 && |KindName(Birth)| == |KindName(Death)| == 5;
    assert |KindName(Marriage)| == 8 && |KindName(Residence)| == 9 && |KindName(Relationship)| == 12;
    assert KindName(Birth)[0] == 'b' && KindName(Death)[0] == 'd';
    assert KindName(NameVariant)[0] == 'n' && KindName(Relationship)[0] == 'r';
  }

  /** A finding comes back from its own spelling, and only acceptable ones do. */
  lemma RawRoundTrip(r: Rules, minConfidence: real, f: Finding)
    ensures FindingProblem(r, RawOf(f), minConfidence) == None <==> Acceptable(r, minConfidence, f)
    ensures Acceptable(r, minConfidence, f) ==> ToFinding(r, RawOf(f), minConfidence) == f
    ensures SafeFindingId(RawOf(f)) == FindingId(f)
  {
    KindRoundTrip(f.kind);
    hide KindOf, KindName;
  }

  /** Every list of acceptable findings with distinct ids is what the intake makes of its spelling. */
  lemma {:induction false} SpelledAreAccepted(r: Rules, minConfidence: real, fs: seq<Finding>)
    requires DistinctIds(fs) && forall f <- fs :: Acceptable(r, minConfidence, f)
    ensures TakeIn(r, minConfidence, RawsOf(fs)).accepted == fs
  {
    hide *;
    RawsPrefix(fs);
    if fs == [] {
      NothingTaken(r, minConfidence);
    } else {
      var n := |fs| - 1;
      DistinctPrefix(fs, n);
      SpelledAreAccepted(r, minConfidence, fs[..n]);
      KeepsLast(r, minConfidence, fs);
      RawRoundTrip(r, minConfidence, fs[n]);
      IntakeLast(r, minConfidence, RawsOf(fs));
    }
  }

  lemma RawsPrefix(fs: seq<Finding>)
    ensures fs != [] ==> RawsOf(fs)[..|fs| - 1] == RawsOf(fs[..|fs| - 1]) && RawsOf(fs)[|fs| - 1] == RawOf(fs[|fs| - 1])
  {
    hide RawOf;
  }

  lemma NothingTaken(r: Rules, minConfidence: real)
    ensures RawsOf([]) == [] && TakeIn(r, minConfidence, []).accepted == []
  {
  }

  lemma KeepsLast(r: Rules, minConfidence: real, fs: seq<Finding>)
    requires fs != [] && DistinctIds(fs) && forall f <- fs :: Acceptable(r, minConfidence, f)
    ensures Keeps(r, minConfidence, RawsOf(fs), |fs| - 1)
  {
    var n, raws := |fs| - 1, RawsOf(fs);
    hide FindingProblem, SafeFindingId, RawOf, Acceptable, Ids, FindingId, ToFinding, RawsOf;
    RawRoundTrip(r, minConfidence, fs[n]);
    forall j | 0 <= j < n ensures SafeFindingId(raws[j]) != SafeFindingId(raws[n]) {
      RawRoundTrip(r, minConfidence, fs[j]);
      IdsAt(fs, j);
      IdsAt(fs, n);
    }
  }

  lemma DistinctPrefix(fs: seq<Finding>, n: nat)
    requires DistinctIds(fs) && n <= |fs|
    ensures DistinctIds(fs[..n])
  {
    forall i, j | 0 <= i < j < n ensures Ids(fs[..n])[i] != Ids(fs[..n])[j] {
      IdsAt(fs[..n], i);
      IdsAt(fs[..n], j);
      IdsAt(fs, i);
      IdsAt(fs, j);
    }
  }

  // ----- groups: one per source key, holding all its findings in order ---

  function WithKey(fs: seq<Finding>, key: string): seq<Finding> {
    if fs == [] then []
    else
      var f := fs[|fs| - 1];
      WithKey(fs[..|fs| - 1], key) + (if SourceKey(f) == key then [f] else [])
  }

  ghost predicate DistinctKeys(gs: seq<Group>) {
    forall i, j :: 0 <= i < j < |gs| ==> gs[i].key != gs[j].key
  }

  lemma {:induction false} AddToGroupsMeaning(gs: seq<Group>, f: Finding)
    requires DistinctKeys(gs)
    ensures var out := AddToGroups(gs, f);
      && DistinctKeys(out)
      && (forall g <- out :: g.key != SourceKey(f) ==> g in gs)
      && (forall g <- gs :: g.key != SourceKey(f) ==> g in out)
      && (exists g <- out :: g.key == SourceKey(f))
      && (forall g <- out :: g.key == SourceKey(f) ==>
            (g.members == [f] && forall h <- gs :: h.key != g.key)
            || (exists h <- gs :: h.key == g.key && g.members == h.members + [f]))
  {
    if gs == [] || gs[0].key == SourceKey(f) {
      assert AddToGroups(gs, f)[0].key == SourceKey(f);
      return;
    }
    AddToGroupsMeaning(gs[1..], f);
    var rest := AddToGroups(gs[1..], f);
    var out := AddToGroups(gs, f);
    assert out == [gs[0]] + rest;
    assert forall g <- rest :: g.key != gs[0].key;
    assert forall g <- gs :: g == gs[0] || g in gs[1..];
    assert forall g <- rest :: g in out;
    assert gs[0] in out;
  }

  /** Each group holds exactly the findings with its key, in input order, and every finding is in one group. */
  lemma {:induction false} GroupsPartition(fs: seq<Finding>)
    ensures DistinctKeys(GroupsOf(fs))
    ensures forall g <- GroupsOf(fs) :: g.members == WithKey(fs, g.key) && g.members != []
    ensures forall f <- fs :: exists g <- GroupsOf(fs) :: g.key == SourceKey(f)
  {
    GroupsInhabited(fs);
    if fs != [] {
      var n := |fs| - 1;
      var f, before := fs[n], GroupsOf(fs[..n]);
      GroupsPartition(fs[..n]);
      AddToGroupsMeaning(before, f);
      var out := GroupsOf(fs);
      forall g <- out ensures g.members == WithKey(fs, g.key) {
        if g.key == SourceKey(f) && forall h <- before :: h.key != g.key {
          NoKeyNoFindings(fs[..n], g.key);
        }
      }
      forall e <- fs ensures exists g <- out :: g.key == SourceKey(e) {
        if SourceKey(e) != SourceKey(f) {
          assert e in fs[..n];
          var g :| g in before && g.key == SourceKey(e);
          assert g in out;
        }
      }
    }
  }

  lemma {:induction false} NoKeyNoFindings(fs: seq<Finding>, key: string)
    requires forall f <- fs :: SourceKey(f) != key
    ensures WithKey(fs, key) == []
  {
    if fs != [] {
      NoKeyNoFindings(fs[..|fs| - 1], key);
    }
  }

  lemma {:induction false} WithKeyMembers(fs: seq<Finding>, key: string)
    ensures forall f :: f in WithKey(fs, key) <==> f in fs && SourceKey(f) == key
  {
    if fs != [] {
      WithKeyMembers(fs[..|fs| - 1], key);
      assert fs == fs[..|fs| - 1] + [fs[|fs| - 1]];
    }
  }

  // ----- where the operations come from ----------------------------------

  /** The description found is the first that describes the group; none is found exactly when none does. */
  lemma {:induction false} FirstDescriptionFound(r: Rules, ds: seq<Description>, g: Group) returns (i: nat)
    requires g.members != []
    ensures i <= |ds| && (i < |ds| <==> FindDescription(r, ds, g).Some?)
    ensures i < |ds| ==> FindDescription(r, ds, g) == Some(ds[i]) && DescribesGroup(r, ds[i], g)
    ensures forall j :: 0 <= j < i ==> !DescribesGroup(r, ds[j], g)
  {
    hide DescribesGroup;
    if ds == [] || DescribesGroup(r, ds[0], g) {
      i := 0;
    } else {
      i := FirstDescriptionFound(r, ds[1..], g);
      i := i + 1;
    }
  }

  lemma {:induction false} SourceOps(c: Ctx, gs: seq<Group>)
    requires Inhabited(gs)
    ensures forall op <- PlanSources(c, gs).creates :: exists g <- gs :: NeedsCreate(c, g) && op == CreateOp(c, g)
    ensures forall g <- gs :: NeedsCreate(c, g) ==> CreateOp(c, g) in PlanSources(c, gs).creates
    ensures forall op <- PlanSources(c, gs).attaches :: exists g <- gs :: NeedsAttach(c, g) && op == AttachOp(c, g)
    ensures forall g <- gs :: NeedsAttach(c, g) ==> AttachOp(c, g) in PlanSources(c, gs).attaches
  {
    hide NeedsCreate, NeedsAttach, CreateOp, AttachOp;
    if gs != [] {
      SourceOps(c, gs[..|gs| - 1]);
      assert gs == gs[..|gs| - 1] + [gs[|gs| - 1]];
    }
  }

  ghost predicate Noted(c: Ctx, f: Finding) {
    FactStatus(c.rules, c.person, f) != Present && !NotePresentFor(c, f)
  }

  ghost predicate Concludable(c: Ctx, f: Finding) {
    c.opts.allowConclusions && FactStatus(c.rules, c.person, f) == Absent
  }

  /** Whether the concluding branch of a step is reached with nothing equal planned before. */
  ghost predicate Concludes(c: Ctx, s: FindingPass, f: Finding) {
    Concludable(c, f) && ConclusionKey(c.rules, f) !in s.seen && !(IsUnique(f.kind) && f.kind in s.unique)
  }

  lemma {:induction false} StepEffect(c: Ctx, s: FindingPass, f: Finding)
    ensures var t := FindingStep(c, s, f);
      && t.notes == s.notes + (if Noted(c, f) then [NoteOp(c, f)] else [])
      && (Concludes(c, s, f) ==>
            && ConclusionOp(c, f).Some?
            && t.facts == s.facts + [ConclusionOp(c, f).value]
            && t.seen == s.seen + {ConclusionKey(c.rules, f)}
            && t.unique == s.unique + if IsUnique(f.kind) then {f.kind} else {})
      && (!Concludes(c, s, f) ==> t.facts == s.facts && t.seen == s.seen && t.unique == s.unique)
  {
    hide ConclusionKey;
    hide NoteOp;
    hide NotePresentFor;
  }

  lemma {:induction false} NoteOps(c: Ctx, fs: seq<Finding>)
    ensures forall op <- PlanFindings(c, fs).notes :: exists f <- fs :: Noted(c, f) && op == NoteOp(c, f)
    ensures forall f <- fs :: Noted(c, f) ==> NoteOp(c, f) in PlanFindings(c, fs).notes
  {
    hide FindingStep;
    hide Noted;
    hide NoteOp;
    if fs != [] {
      NoteOps(c, fs[..|fs| - 1]);
      StepEffect(c, PlanFindings(c, fs[..|fs| - 1]), fs[|fs| - 1]);
      assert fs == fs[..|fs| - 1] + [fs[|fs| - 1]];
    }
  }

  lemma {:induction false} FactOps(c: Ctx, fs: seq<Finding>)
    ensures forall op <- PlanFindings(c, fs).facts ::
      exists f <- fs :: Concludable(c, f) && ConclusionOp(c, f) == Some(op)
  {
    hide FindingStep;
    hide Concludable;
    hide ConclusionOp;
    hide ConclusionKey;
    if fs != [] {
      FactOps(c, fs[..|fs| - 1]);
      StepEffect(c, PlanFindings(c, fs[..|fs| - 1]), fs[|fs| - 1]);
      assert fs == fs[..|fs| - 1] + [fs[|fs| - 1]];
    }
  }

  /** The finding's conclusion is among the operations. */
  ghost predicate ConclusionPlanned(c: Ctx, fs: seq<Finding>, e: Finding) {
    e in fs && ConclusionOp(c, e).Some? && ConclusionOp(c, e).value in PlanFindings(c, fs).facts
  }

  ghost predicate KeyPlanned(c: Ctx, fs: seq<Finding>, key: string) {
    exists e :: ConclusionPlanned(c, fs, e) && ConclusionKey(c.rules, e) == key
  }

  ghost predicate KindPlanned(c: Ctx, fs: seq<Finding>, k: Kind) {
    exists e :: ConclusionPlanned(c, fs, e) && e.kind == k
  }

  lemma {:induction false} SeenArePlanned(c: Ctx, fs: seq<Finding>)
    ensures forall key <- PlanFindings(c, fs).seen :: KeyPlanned(c, fs, key)
    ensures forall k <- PlanFindings(c, fs).unique :: KindPlanned(c, fs, k)
    ensures forall f <- fs :: Concludable(c, f) ==>
      ConclusionKey(c.rules, f) in PlanFindings(c, fs).seen
        || (IsUnique(f.kind) && f.kind in PlanFindings(c, fs).unique)
  {
    hide FindingStep;
    hide Concludable;
    hide ConclusionOp;
    hide ConclusionKey;
    if fs != [] {
      var n := |fs| - 1;
      var before, f := fs[..n], fs[n];
      SeenArePlanned(c, before);
      StepEffect(c, PlanFindings(c, before), f);
      assert fs == before + [f];
      forall e | ConclusionPlanned(c, before, e) ensures ConclusionPlanned(c, fs, e) {}
      if Concludes(c, PlanFindings(c, before), f) {
        assert ConclusionPlanned(c, fs, f);
      }
      forall key <- PlanFindings(c, fs).seen ensures KeyPlanned(c, fs, key) {
        if key in PlanFindings(c, before).seen {
          var e :| ConclusionPlanned(c, before, e) && ConclusionKey(c.rules, e) == key;
          assert ConclusionPlanned(c, fs, e);
        }
      }
      forall k <- PlanFindings(c, fs).unique ensures KindPlanned(c, fs, k) {
        if k in PlanFindings(c, before).unique {
          var e :| ConclusionPlanned(c, before, e) && e.kind == k;
          assert ConclusionPlanned(c, fs, e);
        }
      }
    }
  }

  /** A conclusion the person lacks is planned, unless an equal one is, or another one of a unique kind. */
  lemma ConclusionsCovered(c: Ctx, fs: seq<Finding>, f: Finding)
    requires f in fs && Concludable(c, f)
    ensures KeyPlanned(c, fs, ConclusionKey(c.rules, f)) || (IsUnique(f.kind) && KindPlanned(c, fs, f.kind))
  {
    SeenArePlanned(c, fs);
    hide *;
  }

  // ----- operation ids ---------------------------------------------------

  function OpIds(ops: seq<Op>): (ids: seq<string>)
    ensures |ids| == |ops|
    ensures forall i :: 0 <= i < |ops| ==> ids[i] == ops[i].id
  {
    seq(|ops|, i requires 0 <= i < |ops| => ops[i].id)
  }

  lemma IdsCommaFree(fs: seq<Finding>, part: seq<Finding>)
    requires CommaFree(Ids(fs)) && forall f <- part :: f in fs
    ensures CommaFree(Ids(part))
  {
    IdsMembers(fs);
    IdsMembers(part);
  }

  /** No two groups join their finding ids to the same text. */
  ghost predicate GroupsApart(fs: seq<Finding>) {
    forall g, h :: g in GroupsOf(fs) && h in GroupsOf(fs) && Joined(Ids(g.members)) == Joined(Ids(h.members)) ==> g == h
  }

  /** Ids without commas are enough. */
  lemma CommaFreeApart(fs: seq<Finding>)
    requires DistinctIds(fs) && CommaFree(Ids(fs))
    ensures GroupsApart(fs)
  {
    hide Joined, OpKey;
    forall g, h | g in GroupsOf(fs) && h in GroupsOf(fs) && Joined(Ids(g.members)) == Joined(Ids(h.members))
      ensures g == h
    {
      SameTextSameGroup(fs, g, h);
    }
  }

  lemma {:induction false} SameTextSameGroup(fs: seq<Finding>, g: Group, h: Group)
    requires DistinctIds(fs) && CommaFree(Ids(fs)) && g in GroupsOf(fs) && h in GroupsOf(fs)
    requires Joined(Ids(g.members)) == Joined(Ids(h.members))
    ensures g == h
  {
    GroupsPartition(fs);
    WithKeyMembers(fs, g.key);
    WithKeyMembers(fs, h.key);
    IdsCommaFree(fs, g.members);
    IdsCommaFree(fs, h.members);
    SameKeyIffSameText(CreateSource, Ids(g.members), CreateSource, Ids(h.members));
    OpKeyIdentity(CreateSource, Ids(g.members), CreateSource, Ids(h.members));
    var f := g.members[0];
    IdsMembers(g.members);
    IdsMembers(h.members);
    assert FindingId(f) in multiset(Ids(g.members));
    assert FindingId(f) in Ids(h.members);
    var e :| e in h.members && FindingId(e) == FindingId(f);
    SameIdSameFinding(fs, e, f);
    assert g.key == h.key;
  }

  /** Operations over different groups, or of different types, never share an id. */
  lemma GroupKeysApart(fs: seq<Finding>, t: OpType, g: Group, u: OpType, h: Group)
    requires GroupsApart(fs) && g in GroupsOf(fs) && h in GroupsOf(fs)
    ensures OpKey(t, Ids(g.members)) == OpKey(u, Ids(h.members)) <==> t == u && g == h
  {
    SameKeyIffSameText(t, Ids(g.members), u, Ids(h.members));
    hide GroupsOf, Joined, OpKey, Ids;
  }

  lemma FindingKeysApart(fs: seq<Finding>, t: OpType, f: Finding, u: OpType, g: Finding)
    requires DistinctIds(fs) && f in fs && g in fs
    ensures OpKey(t, [FindingId(f)]) == OpKey(u, [FindingId(g)]) <==> t == u && f == g
  {
    SameKeyIffSameText(t, [FindingId(f)], u, [FindingId(g)]);
    JoinedOne(FindingId(f));
    JoinedOne(FindingId(g));
    if FindingId(f) == FindingId(g) {
      SameIdSameFinding(fs, f, g);
    }
  }

  /** Every operation carries its own fingerprint and names accepted findings only. */
  ghost predicate WellKeyed(fs: seq<Finding>, op: Op) {
    && op.id == Fingerprint(op)
    && op.findingIds != []
    && forall id <- op.findingIds :: id in Ids(fs)
  }

  lemma GroupMembersIn(fs: seq<Finding>, g: Group)
    requires g in GroupsOf(fs)
    ensures forall f <- g.members :: f in fs
    ensures forall id <- Ids(g.members) :: id in Ids(fs)
  {
    GroupsPartition(fs);
    WithKeyMembers(fs, g.key);
    IdsMembers(fs);
    IdsMembers(g.members);
  }

  lemma {:induction false} OperationsWellKeyed(c: Ctx, fs: seq<Finding>)
    ensures forall op <- Operations(c, fs) :: WellKeyed(fs, op)
  {
    hide PlanSources, PlanFindings, GroupsOf, Ids, OpKey, ExistingId, Concludable, Noted, NoteText, Tags;
    var gs := GroupsOf(fs);
    GroupsInhabited(fs);
    SourceOps(c, gs);
    NoteOps(c, fs);
    FactOps(c, fs);
    IdsMembers(fs);
    forall g <- gs ensures forall id <- Ids(g.members) :: id in Ids(fs) {
      GroupMembersIn(fs, g);
    }
    var s, p := PlanSources(c, gs), PlanFindings(c, fs);
    assert Operations(c, fs) == s.creates + s.attaches + p.notes + p.facts;
    forall op <- p.notes ensures WellKeyed(fs, op) {}
    forall op <- p.facts ensures WellKeyed(fs, op) {}
    forall op <- s.creates ensures WellKeyed(fs, op) {}
    forall op <- s.attaches ensures WellKeyed(fs, op) {}
    forall op <- Operations(c, fs) ensures WellKeyed(fs, op) {
      assert op in s.creates || op in s.attaches || op in p.notes || op in p.facts;
    }
  }

  ghost predicate DistinctOps(ops: seq<Op>) {
    Distinct(OpIds(ops))
  }

  ghost predicate Apart(xs: seq<Op>, ys: seq<Op>) {
    forall x <- xs, y <- ys :: x.id != y.id
  }

  lemma DistinctConcat(xs: seq<Op>, ys: seq<Op>)
    requires DistinctOps(xs) && DistinctOps(ys) && Apart(xs, ys)
    ensures DistinctOps(xs + ys)
  {
    forall i, j | 0 <= i < j < |xs + ys| ensures OpIds(xs + ys)[i] != OpIds(xs + ys)[j] {
      if j < |xs| {
        assert OpIds(xs)[i] != OpIds(xs)[j];
      } else if i >= |xs| {
        assert OpIds(ys)[i - |xs|] != OpIds(ys)[j - |xs|];
      } else {
        assert (xs + ys)[i] in xs && (xs + ys)[j] in ys;
      }
    }
  }

  /** Both groups need a description, or both an attachment. */
  ghost predicate BothPlanned(c: Ctx, g: Group, h: Group)
    requires g.members != [] && h.members != []
  {
    (NeedsCreate(c, g) && NeedsCreate(c, h)) || (NeedsAttach(c, g) && NeedsAttach(c, h))
  }

  /** Groups with operations of the same type join their finding ids to different texts. */
  ghost predicate TextsApart(c: Ctx, gs: seq<Group>) {
    forall i, j :: 0 <= i < j < |gs| ==>
      gs[i].members != [] && gs[j].members != []
      && (BothPlanned(c, gs[i], gs[j]) ==> Joined(Ids(gs[i].members)) != Joined(Ids(gs[j].members)))
  }

  lemma {:induction false} SourceOpsDistinct(c: Ctx, gs: seq<Group>)
    requires Inhabited(gs) && TextsApart(c, gs)
    ensures DistinctOps(PlanSources(c, gs).creates) && DistinctOps(PlanSources(c, gs).attaches)
  {
    hide *;
    SourcesLast(c, gs);
    if gs != [] {
      var before, g := gs[..|gs| - 1], gs[|gs| - 1];
      TextsApartPrefix(c, gs);
      SourceOpsDistinct(c, before);
      LastApart(c, gs);
      var s := PlanSources(c, before);
      DistinctPush(s.creates, CreateOp(c, g), NeedsCreate(c, g));
      DistinctPush(s.attaches, AttachOp(c, g), NeedsAttach(c, g));
    }
  }

  function When(yes: bool, op: Op): seq<Op> {
    if yes then [op] else []
  }

  lemma SourcesLast(c: Ctx, gs: seq<Group>)
    requires Inhabited(gs)
    ensures gs == [] ==> DistinctOps(PlanSources(c, gs).creates) && DistinctOps(PlanSources(c, gs).attaches)
    ensures gs != [] ==>
      var before, g := gs[..|gs| - 1], gs[|gs| - 1];
      && Inhabited(before) && g.members != []
      && PlanSources(c, gs).creates == PlanSources(c, before).creates + When(NeedsCreate(c, g), CreateOp(c, g))
      && PlanSources(c, gs).attaches == PlanSources(c, before).attaches + When(NeedsAttach(c, g), AttachOp(c, g))
  {
    hide CreateOp, AttachOp, ExistingId;
  }

  lemma TextsApartPrefix(c: Ctx, gs: seq<Group>)
    requires gs != [] && Inhabited(gs) && Inhabited(gs[..|gs| - 1]) && TextsApart(c, gs)
    ensures TextsApart(c, gs[..|gs| - 1])
  {
    var before := gs[..|gs| - 1];
    if !TextsApart(c, before) {
      var i, j := NotApart(c, before);
      assert false;
    }
  }

  lemma {:induction false} LastApart(c: Ctx, gs: seq<Group>)
    requires gs != [] && Inhabited(gs) && TextsApart(c, gs)
    ensures var g, s := gs[|gs| - 1], PlanSources(c, gs[..|gs| - 1]);
      && Apart(s.creates, When(NeedsCreate(c, g), CreateOp(c, g)))
      && Apart(s.attaches, When(NeedsAttach(c, g), AttachOp(c, g)))
  {
    var before, g := gs[..|gs| - 1], gs[|gs| - 1];
    SourceOps(c, before);
    hide OpKey, Joined, Ids, NeedsCreate, NeedsAttach, PlanSources, ExistingId;
    forall h <- before, t ensures BothPlanned(c, h, g) ==> OpKey(t, Ids(h.members)) != OpKey(t, Ids(g.members)) {
      SameKeyIffSameText(t, Ids(h.members), t, Ids(g.members));
    }
  }

  lemma DistinctPush(ops: seq<Op>, op: Op, yes: bool)
    requires DistinctOps(ops) && Apart(ops, When(yes, op))
    ensures DistinctOps(ops + When(yes, op))
  {
    DistinctConcat(ops, When(yes, op));
  }

  lemma CollidingOps(ops: seq<Op>, x: Op, y: Op)
    requires x in ops && y in ops && x != y && x.id == y.id
    ensures !DistinctOps(ops)
  {
    var i :| 0 <= i < |ops| && ops[i] == x;
    var j :| 0 <= j < |ops| && ops[j] == y;
    assert OpIds(ops)[i] == OpIds(ops)[j];
  }

  /** Different groups have different findings. */
  lemma GroupIdsDiffer(fs: seq<Finding>, i: nat, j: nat)
    requires DistinctIds(fs) && i < j < |GroupsOf(fs)|
    ensures Ids(GroupsOf(fs)[i].members) != Ids(GroupsOf(fs)[j].members)
  {
    var g, h := GroupsOf(fs)[i], GroupsOf(fs)[j];
    GroupsPartition(fs);
    GroupMembersIn(fs, g);
    GroupMembersIn(fs, h);
    if Ids(g.members) == Ids(h.members) {
      IdsAt(g.members, 0);
      IdsAt(h.members, 0);
      SameIdSameFinding(fs, g.members[0], h.members[0]);
      WithKeyMembers(fs, g.key);
      WithKeyMembers(fs, h.key);
    }
  }

  lemma {:induction false} SharedTextCollides(c: Ctx, fs: seq<Finding>, i: nat, j: nat)
    requires DistinctIds(fs) && Inhabited(GroupsOf(fs)) && i < j < |GroupsOf(fs)|
    requires var g, h := GroupsOf(fs)[i], GroupsOf(fs)[j];
      BothPlanned(c, g, h) && Joined(Ids(g.members)) == Joined(Ids(h.members))
    ensures !DistinctOps(Operations(c, fs))
  {
    var g, h := GroupsOf(fs)[i], GroupsOf(fs)[j];
    GroupIdsDiffer(fs, i, j);
    SourceOps(c, GroupsOf(fs));
    var s, p := PlanSources(c, GroupsOf(fs)), PlanFindings(c, fs);
    assert Operations(c, fs) == s.creates + s.attaches + p.notes + p.facts;
    hide GroupsOf, Operations, PlanSources, PlanFindings, Ids, DistinctOps, NeedsCreate, NeedsAttach, ExistingId,
         Joined;
    if NeedsCreate(c, g) && NeedsCreate(c, h) {
      CollidingOps(Operations(c, fs), CreateOp(c, g), CreateOp(c, h));
    } else {
      CollidingOps(Operations(c, fs), AttachOp(c, g), AttachOp(c, h));
    }
  }

  /** No earlier finding has an operation id in common with finding `n`. */
  lemma {:induction false} EarlierKeysApart(all: seq<Finding>, n: nat)
    requires DistinctIds(all) && n < |all|
    ensures forall e <- all[..n], t, u :: OpKey(t, [FindingId(e)]) != OpKey(u, [FindingId(all[n])])
  {
    hide OpKey, FindingId;
    forall e <- all[..n], t, u ensures OpKey(t, [FindingId(e)]) != OpKey(u, [FindingId(all[n])]) {
      var k :| 0 <= k < n && all[k] == e;
      IdsAt(all, k);
      IdsAt(all, n);
      assert Ids(all)[k] != Ids(all)[n];
      FindingKeysApart(all, t, e, u, all[n]);
    }
  }

  lemma {:induction false} FindingOpsDistinct(c: Ctx, all: seq<Finding>, fs: seq<Finding>)
    requires DistinctIds(all) && fs <= all
    ensures DistinctOps(PlanFindings(c, fs).notes) && DistinctOps(PlanFindings(c, fs).facts)
  {
    hide FindingStep, Noted, Concludable, ConclusionKey, OpKey, FindingId, DistinctIds;
    if fs != [] {
      var n := |fs| - 1;
      var f, before := fs[n], fs[..n];
      FindingOpsDistinct(c, all, before);
      StepEffect(c, PlanFindings(c, before), f);
      NoteOps(c, before);
      FactOps(c, before);
      EarlierKeysApart(all, n);
      assert all[..n] == before && all[n] == f;
      var s := PlanFindings(c, before);
      DistinctConcat(s.notes, [NoteOp(c, f)]);
      if ConclusionOp(c, f).Some? {
        DistinctConcat(s.facts, [ConclusionOp(c, f).value]);
      }
    }
  }

  /** The four lists of a plan hold different operation types. */
  lemma {:induction false} OperationTypes(c: Ctx, fs: seq<Finding>)
    requires Inhabited(GroupsOf(fs))
    ensures var s, p := PlanSources(c, GroupsOf(fs)), PlanFindings(c, fs);
      && (forall op <- s.creates :: op.opType == CreateSource)
      && (forall op <- s.attaches :: op.opType == AttachSource)
      && (forall op <- p.notes :: op.opType == AddNote)
      && (forall op <- p.facts :: op.opType == AddFact || op.opType == AddName)
  {
    SourceOps(c, GroupsOf(fs));
    NoteOps(c, fs);
    FactOps(c, fs);
  }

  /** Operation ids equal their fingerprints, and are pairwise distinct exactly when no two groups with operations of
      the same type join their finding ids to the same text. Notes and conclusions never share an id. */
  lemma {:induction false} OperationIdsDistinctIff(c: Ctx, fs: seq<Finding>)
    requires DistinctIds(fs)
    ensures DistinctOps(Operations(c, fs)) <==> TextsApart(c, GroupsOf(fs))
    ensures forall op <- Operations(c, fs) :: op.id == Fingerprint(op)
  {
    GroupsInhabited(fs);
    OperationsWellKeyed(c, fs);
    hide *;
    if TextsApart(c, GroupsOf(fs)) {
      SourceOpsDistinct(c, GroupsOf(fs));
      FindingOpsDistinct(c, fs, fs);
      FourPartsDistinct(c, fs);
    } else {
      var i, j := NotApart(c, GroupsOf(fs));
      SharedTextCollides(c, fs, i, j);
    }
    KeysAreFingerprints(fs, Operations(c, fs));
  }

  lemma NotApart(c: Ctx, gs: seq<Group>) returns (i: nat, j: nat)
    requires Inhabited(gs) && !TextsApart(c, gs)
    ensures i < j < |gs| && gs[i].members != [] && gs[j].members != []
    ensures BothPlanned(c, gs[i], gs[j]) && Joined(Ids(gs[i].members)) == Joined(Ids(gs[j].members))
  {
    hide BothPlanned, Joined, Ids;
    i, j :| 0 <= i < j < |gs| && !(gs[i].members != [] && gs[j].members != []
      && (BothPlanned(c, gs[i], gs[j]) ==> Joined(Ids(gs[i].members)) != Joined(Ids(gs[j].members))));
  }

  lemma KeysAreFingerprints(fs: seq<Finding>, ops: seq<Op>)
    requires forall op <- ops :: WellKeyed(fs, op)
    ensures forall op <- ops :: op.id == Fingerprint(op)
  {
    hide Ids;
  }

  lemma {:induction false} FourPartsDistinct(c: Ctx, fs: seq<Finding>)
    requires Inhabited(GroupsOf(fs)) && forall op <- Operations(c, fs) :: WellKeyed(fs, op)
    requires var s, p := PlanSources(c, GroupsOf(fs)), PlanFindings(c, fs);
      DistinctOps(s.creates) && DistinctOps(s.attaches) && DistinctOps(p.notes) && DistinctOps(p.facts)
    ensures DistinctOps(Operations(c, fs))
  {
    OperationTypes(c, fs);
    var s, p := PlanSources(c, GroupsOf(fs)), PlanFindings(c, fs);
    var ops := Operations(c, fs);
    assert ops == s.creates + s.attaches + p.notes + p.facts;
    hide Operations, PlanSources, PlanFindings, GroupsOf, OpKey, Ids, DistinctOps;
    forall x <- ops, y <- ops | x.opType != y.opType ensures x.id != y.id {
      SameKeyIffSameText(x.opType, x.findingIds, y.opType, y.findingIds);
    }
    assert forall x <- s.creates + s.attaches + p.notes + p.facts :: x in ops;
    assert Apart(s.creates, s.attaches);
    DistinctConcat(s.creates, s.attaches);
    assert Apart(s.creates + s.attaches, p.notes);
    DistinctConcat(s.creates + s.attaches, p.notes);
    assert Apart(s.creates + s.attaches + p.notes, p.facts);
    DistinctConcat(s.creates + s.attaches + p.notes, p.facts);
  }

  /** They are always distinct if no two groups join to the same text at all. */
  lemma {:induction false} OperationIdsDistinct(c: Ctx, fs: seq<Finding>)
    requires DistinctIds(fs) && GroupsApart(fs)
    ensures DistinctOps(Operations(c, fs))
    ensures forall op <- Operations(c, fs) :: op.id == Fingerprint(op)
    ensures TextsApart(c, GroupsOf(fs))
  {
    OperationIdsDistinctIff(c, fs);
    var gs := GroupsOf(fs);
    GroupsPartition(fs);
    hide GroupsOf, OpKey, Joined, Ids, BothPlanned, DistinctIds, DistinctOps, Operations, WithKey;
    forall i, j | 0 <= i < j < |gs| ensures Joined(Ids(gs[i].members)) != Joined(Ids(gs[j].members)) {
      assert gs[i] in gs && gs[j] in gs && gs[i].key != gs[j].key;
    }
  }

  lemma TwoGroups(f: Finding, g: Finding, h: Finding)
    requires SourceKey(f) != SourceKey(g) == SourceKey(h)
    ensures GroupsOf([f, g, h]) == [Group(SourceKey(f), [f]), Group(SourceKey(g), [g, h])]
  {
    hide SourceKey;
    var a, b := Group(SourceKey(f), [f]), Group(SourceKey(g), [g]);
    var fg, fgh := [f, g], [f, g, h];
    assert fgh[..2] == fg && fg[..1] == [f] && [f][..0] == [];
    assert GroupsOf([f]) == AddToGroups([], f) == [a];
    assert [a][1..] == [] && [a, b][1..] == [b];
    assert GroupsOf(fg) == AddToGroups([a], g) == [a] + AddToGroups([], g) == [a, b];
    assert AddToGroups([b], h) == [Group(b.key, [g] + [h])] + [b][1..];
    assert fgh[2] == h && GroupsOf(fgh) == AddToGroups(GroupsOf(fgh[..2]), h);
    assert GroupsOf(fgh) == [a] + AddToGroups([b], h);
    assert [g] + [h] == [g, h];
  }

  /** A finding id with a comma can make two operations of one plan share an id: one finding whose fact id is
      "1,x/2" and two findings of the same source under another URL. */
  lemma {:induction false} CommasCollideInPlan(c: Ctx)
    requires c.opts.existingSources == map[] && c.doc.descriptions == []
    ensures DistinctIds(CommaFindings()) && !DistinctOps(Operations(c, CommaFindings()))
  {
    var f := Finding(Relationship, "v", None, None, Some("u"), "t", "x", "1,x/2", 0.9, "n");
    var g := Finding(Relationship, "v", None, None, Some("w"), "t", "x", "1", 0.9, "n");
    var h := g.(factId := "2");
    var fs := [f, g, h];
    assert fs == CommaFindings();
    assert SourceKey(f)[2] == 'u' && SourceKey(g)[2] == 'w';
    TwoGroups(f, g, h);
    var a, b := Group(SourceKey(f), [f]), Group(SourceKey(g), [g, h]);
    CollidingIds(f, g, h);
    BothCreated(c, a, b);
    var ids := OpIds(Operations(c, fs));
    hide *;
    assert ids[0] == ids[1];
  }

  function CommaFindings(): seq<Finding> {
    var f := Finding(Relationship, "v", None, None, Some("u"), "t", "x", "1,x/2", 0.9, "n");
    var g := f.(sourceUrl := Some("w"), factId := "1");
    [f, g, g.(factId := "2")]
  }

  /** The same as `buildPlan` receives it: three well-formed raw findings, a person known to be dead and a document
      without descriptions give a plan in which two operations have one id. */
  lemma {:induction false} CommaBreaksDistinctIds(r: Rules, pid: string, doc: Document, opts: Options)
    requires forall t <- ["v", "t", "x", "n", "1", "2", "1,x/2"] :: !r.blank(t)
    requires FindPerson(doc.persons, pid).Some?
      && !IsPossiblyLiving(r, FindPerson(doc.persons, pid).value, opts.nowYear)
    requires doc.descriptions == [] && opts.existingSources == map[] && opts.minConfidence <= 0.9
    ensures var out := PlanFor(r, pid, RawsOf(CommaFindings()), doc, opts);
      out.Planned? && !DistinctOps(out.plan.operations)
  {
    var c, fs := Ctx(r, pid, doc, FindPerson(doc.persons, pid).value, opts), CommaFindings();
    hide *;
    CommasCollideInPlan(c);
    CommasAcceptable(r, opts.minConfidence);
    SpelledAreAccepted(r, opts.minConfidence, fs);
    PlanWithoutDeclarations(r, pid, RawsOf(fs), doc, opts);
  }

  lemma CommasAcceptable(r: Rules, minConfidence: real)
    requires (forall t <- ["v", "t", "x", "n", "1", "2", "1,x/2"] :: !r.blank(t)) && minConfidence <= 0.9
    ensures forall f <- CommaFindings() :: Acceptable(r, minConfidence, f)
  {
    var texts := ["v", "t", "x", "n", "1", "2", "1,x/2"];
    assert !r.blank(texts[0]) && !r.blank(texts[1]) && !r.blank(texts[2]) && !r.blank(texts[3])
      && !r.blank(texts[4]) && !r.blank(texts[5]) && !r.blank(texts[6]);
  }

  /** Without declared ids a plan always comes about. */
  lemma PlanWithoutDeclarations(r: Rules, pid: string, raws: seq<RawFinding>, doc: Document, opts: Options)
    requires FindPerson(doc.persons, pid).Some?
      && !IsPossiblyLiving(r, FindPerson(doc.persons, pid).value, opts.nowYear)
    requires opts.existingSources == map[]
    ensures var out := PlanFor(r, pid, raws, doc, opts);
      && out.Planned?
      && out.plan.operations == Operations(Ctx(r, pid, doc, FindPerson(doc.persons, pid).value, opts),
                                           TakeIn(r, opts.minConfidence, raws).accepted)
  {
    var c, intake := Ctx(r, pid, doc, FindPerson(doc.persons, pid).value, opts), TakeIn(r, opts.minConfidence, raws);
    GroupsInhabited(intake.accepted);
    hide TakeIn, IsPossiblyLiving, GroupsOf, PlanSources, PlanFindings, Operations, FindPerson;
    assert forall g <- GroupsOf(intake.accepted) :: !BadDeclaration(c, g);
  }

  lemma {:induction false} BothCreated(c: Ctx, a: Group, b: Group)
    requires a.members != [] && b.members != []
    requires c.opts.existingSources == map[] && c.doc.descriptions == []
    ensures PlanSources(c, [a, b]).creates == [CreateOp(c, a), CreateOp(c, b)]
  {
    assert NeedsCreate(c, a) && NeedsCreate(c, b);
    hide CreateOp;
    hide AttachOp;
    hide NeedsCreate;
    hide NeedsAttach;
    assert [a, b][..1] == [a] && [a][..0] == [];
    assert PlanSources(c, [a]).creates == [CreateOp(c, a)];
  }

  lemma CollidingIds(f: Finding, g: Finding, h: Finding)
    requires f.sourceId == g.sourceId == h.sourceId == "x"
    requires f.factId == "1,x/2" && g.factId == "1" && h.factId == "2"
    ensures DistinctIds([f, g, h])
    ensures OpKey(CreateSource, Ids([f])) == OpKey(CreateSource, Ids([g, h]))
  {
    IdsOfThree(f, g, h);
    assert FindingId(f) == "x/1,x/2" && FindingId(g) == "x/1" && FindingId(h) == "x/2";
    CommasCollide();
    hide *;
    var ids := Ids([f, g, h]);
    assert |ids[0]| == 7 && |ids[1]| == |ids[2]| == 3 && ids[1][2] == '1' && ids[2][2] == '2';
  }

  lemma IdsOfThree(f: Finding, g: Finding, h: Finding)
    ensures Ids([f]) == [FindingId(f)] && Ids([g, h]) == [FindingId(g), FindingId(h)]
    ensures Ids([f, g, h]) == [FindingId(f), FindingId(g), FindingId(h)]
  {
    hide FindingId;
    assert [f, g, h][1..] == [g, h] && [g, h][1..] == [h] && [h][1..] == [] && [f][1..] == [];
    assert Ids([h]) == [FindingId(h)];
  }

  // ----- dependencies ----------------------------------------------------

  /** Each dependency is an earlier create operation over the same findings. */
  ghost predicate DependsOnEarlierCreate(ops: seq<Op>, i: nat)
    requires i < |ops|
  {
    ops[i].dependsOn.Some? ==>
      exists j :: 0 <= j < i && ops[j].opType == CreateSource && ops[j].id == ops[i].dependsOn.value
                  && ops[j].findingIds == ops[i].findingIds
  }

  ghost predicate CreatedIn(creates: seq<Op>, op: Op) {
    op.dependsOn.Some? ==>
      exists e <- creates :: e.opType == CreateSource && e.id == op.dependsOn.value && e.findingIds == op.findingIds
  }

  lemma CreatesFirst(creates: seq<Op>, attaches: seq<Op>, rest: seq<Op>)
    requires forall i :: 0 <= i < |creates| ==> creates[i].dependsOn.None?
    requires forall i :: 0 <= i < |rest| ==> rest[i].dependsOn.None?
    requires forall op <- attaches :: op.opType == AttachSource && CreatedIn(creates, op)
    ensures var ops := creates + attaches + rest;
      forall i :: 0 <= i < |ops| ==> DependsOnEarlierCreate(ops, i)
                                     && (ops[i].dependsOn.Some? ==> ops[i].opType == AttachSource)
  {
    var ops := creates + attaches + rest;
    forall i | 0 <= i < |ops| && ops[i].dependsOn.Some?
      ensures DependsOnEarlierCreate(ops, i) && ops[i].opType == AttachSource
    {
      assert |creates| <= i < |creates| + |attaches|;
      assert ops[i] == attaches[i - |creates|];
      var e :| e in creates && e.opType == CreateSource && e.id == ops[i].dependsOn.value
               && e.findingIds == ops[i].findingIds;
      var j :| 0 <= j < |creates| && creates[j] == e;
      assert ops[j] == e;
    }
  }

  lemma {:induction false} DependenciesEarlier(c: Ctx, fs: seq<Finding>)
    ensures var ops := Operations(c, fs);
      forall i :: 0 <= i < |ops| ==> DependsOnEarlierCreate(ops, i)
                                     && (ops[i].dependsOn.Some? ==> ops[i].opType == AttachSource)
  {
    GroupsInhabited(fs);
    SourceOps(c, GroupsOf(fs));
    NoteOps(c, fs);
    FactOps(c, fs);
    var s, p := PlanSources(c, GroupsOf(fs)), PlanFindings(c, fs);
    hide GroupsOf;
    hide PlanSources;
    hide PlanFindings;
    hide ExistingId;
    var rest := p.notes + p.facts;
    assert Operations(c, fs) == s.creates + s.attaches + rest;
    forall i | 0 <= i < |s.creates| ensures s.creates[i].dependsOn.None? {
      assert s.creates[i] in s.creates;
    }
    forall i | 0 <= i < |rest| ensures rest[i].dependsOn.None? {
      assert rest[i] in p.notes || rest[i] in p.facts;
    }
    CreatesFirst(s.creates, s.attaches, rest);
  }

  // ----- conclusions -----------------------------------------------------

  ghost predicate AddsFact(op: Op, factType: string) {
    op.opType == AddFact && op.body.FactBody? && op.body.factType == factType
  }

  lemma FactTypesDiffer()
    ensures forall j, k :: FactTypeOf(j).Some? && FactTypeOf(j) == FactTypeOf(k) ==> j == k
  {
    assert FactTypeOf(Birth).value[|GX|] == 'B' && FactTypeOf(Death).value[|GX|] == 'D'
           && FactTypeOf(Residence).value[|GX|] == 'R';
  }

  lemma {:induction false} UniqueFactsOnce(c: Ctx, fs: seq<Finding>, k: Kind)
    requires IsUnique(k)
    ensures var facts, t := PlanFindings(c, fs).facts, FactTypeOf(k).value;
      && (forall i, j :: 0 <= i < j < |facts| ==> !(AddsFact(facts[i], t) && AddsFact(facts[j], t)))
      && ((exists op <- facts :: AddsFact(op, t)) ==> k in PlanFindings(c, fs).unique && !HasFact(c.person, t))
  {
    hide FindingStep;
    hide ConclusionKey;
    if fs != [] {
      UniqueFactsOnce(c, fs[..|fs| - 1], k);
      StepEffect(c, PlanFindings(c, fs[..|fs| - 1]), fs[|fs| - 1]);
      FactTypesDiffer();
    }
  }

  /** At most one birth and one death is added, and none to a person that has one already. */
  lemma {:induction false} AtMostOneUniqueFact(c: Ctx, fs: seq<Finding>, k: Kind)
    requires IsUnique(k)
    ensures var ops, t := Operations(c, fs), FactTypeOf(k).value;
      && (forall i, j :: 0 <= i < j < |ops| ==> !(AddsFact(ops[i], t) && AddsFact(ops[j], t)))
      && (HasFact(c.person, t) ==> forall op <- ops :: !AddsFact(op, t))
  {
    GroupsInhabited(fs);
    OperationTypes(c, fs);
    UniqueFactsOnce(c, fs, k);
    var s, p := PlanSources(c, GroupsOf(fs)), PlanFindings(c, fs);
    var ops, t := Operations(c, fs), FactTypeOf(k).value;
    var before := s.creates + s.attaches + p.notes;
    assert ops == before + p.facts;
    forall op <- before ensures !AddsFact(op, t) {
      assert op in s.creates || op in s.attaches || op in p.notes;
    }
  }

  /** With conclusion writes off a plan adds no fact and no name. */
  lemma {:induction false} ConclusionsNeedOptIn(c: Ctx, fs: seq<Finding>)
    requires !c.opts.allowConclusions
    ensures PlanFindings(c, fs).facts == []
  {
    hide FindingStep;
    if fs != [] {
      ConclusionsNeedOptIn(c, fs[..|fs| - 1]);
      StepEffect(c, PlanFindings(c, fs[..|fs| - 1]), fs[|fs| - 1]);
    }
  }

  /** A choice of finding ids. */
  type Chosen = string -> bool

  function Only(id: string): Chosen {
    x => x == id
  }

  function One(yes: bool): nat {
    if yes then 1 else 0
  }

  /** The operations for one chosen finding each. */
  function CountOps(ops: seq<Op>, who: Chosen): nat {
    if ops == [] then 0
    else
      var ids := ops[|ops| - 1].findingIds;
      CountOps(ops[..|ops| - 1], who) + One(|ids| == 1 && who(ids[0]))
  }

  /** The skips of chosen findings, of their notes or of their conclusions. */
  function CountSkips(skips: seq<Skip>, note: bool, who: Chosen): nat {
    if skips == [] then 0
    else
      var last := skips[|skips| - 1];
      CountSkips(skips[..|skips| - 1], note, who) + One((last.opType == AddNote) == note && who(last.findingId))
  }

  function CountFindings(fs: seq<Finding>, who: Chosen): nat {
    if fs == [] then 0 else CountFindings(fs[..|fs| - 1], who) + One(who(FindingId(fs[|fs| - 1])))
  }

  function CountAbsent(c: Ctx, fs: seq<Finding>, who: Chosen): nat {
    if fs == [] then 0
    else
      var last := fs[|fs| - 1];
      CountAbsent(c, fs[..|fs| - 1], who) + One(FactStatus(c.rules, c.person, last) == Absent && who(FindingId(last)))
  }

  lemma CountSkipsPush(skips: seq<Skip>, s: Skip, who: Chosen)
    ensures CountSkips(skips + [s], true, who)
      == CountSkips(skips, true, who) + One(s.opType == AddNote && who(s.findingId))
    ensures CountSkips(skips + [s], false, who)
      == CountSkips(skips, false, who) + One(s.opType != AddNote && who(s.findingId))
  {
    assert (skips + [s])[..|skips|] == skips;
  }

  lemma CountOpsPush(ops: seq<Op>, op: Op, id: string, who: Chosen)
    requires op.findingIds == [id]
    ensures CountOps(ops + [op], who) == CountOps(ops, who) + One(who(id))
  {
    assert (ops + [op])[..|ops|] == ops;
  }

  function NoteOutcomes(p: FindingPass, who: Chosen): nat {
    CountOps(p.notes, who) + CountSkips(p.skipped, true, who)
  }

  function ConclusionOutcomes(p: FindingPass, who: Chosen): nat {
    CountOps(p.facts, who) + CountSkips(p.skipped, false, who)
  }

  lemma NoteStepAccounted(c: Ctx, s: FindingPass, f: Finding, who: Chosen)
    ensures var t := NoteStep(c, s, f);
      && NoteOutcomes(t, who) == NoteOutcomes(s, who) + One(who(FindingId(f)))
      && ConclusionOutcomes(t, who) == ConclusionOutcomes(s, who)
  {
    CountSkipsPush(s.skipped, Skip(FindingId(f), AddNote, NotePresent), who);
    CountOpsPush(s.notes, NoteOp(c, f), FindingId(f), who);
    hide CountSkips, CountOps, NotePresentFor, NoteOp, FindingId;
  }

  lemma ConclusionStepAccounted(c: Ctx, s: FindingPass, f: Finding, who: Chosen)
    requires ConclusionOp(c, f).Some?
    ensures var t := ConclusionStep(c, s, f);
      && ConclusionOutcomes(t, who) == ConclusionOutcomes(s, who) + One(who(FindingId(f)))
      && NoteOutcomes(t, who) == NoteOutcomes(s, who)
  {
    hide CountSkips, CountOps, FindingId, ConclusionKey;
    var id := FindingId(f);
    ConclusionFor(c, f);
    CountOpsPush(s.facts, ConclusionOp(c, f).value, id, who);
    CountSkipsPush(s.skipped, Skip(id, ConclusionType(f), ConclusionsDisabled), who);
    CountSkipsPush(s.skipped, Skip(id, ConclusionType(f), SameConclusionPlanned), who);
    CountSkipsPush(s.skipped, Skip(id, AddFact, UniqueConclusionPlanned), who);
    hide ConclusionOp, ConclusionType, IsUnique;
  }

  lemma ConclusionFor(c: Ctx, f: Finding)
    requires ConclusionOp(c, f).Some?
    ensures ConclusionOp(c, f).value.findingIds == [FindingId(f)] && ConclusionType(f) != AddNote
  {
    hide FindingId;
  }

  lemma FindingStepIs(c: Ctx, s: FindingPass, f: Finding)
    ensures var noted := NoteStep(c, s, f);
      FindingStep(c, s, f)
      == if FactStatus(c.rules, c.person, f) == Present
           then s.(skipped := s.skipped + [Skip(FindingId(f), AddNote, ConclusionPresent)])
         else if FactStatus(c.rules, c.person, f) != Absent then noted else ConclusionStep(c, noted, f)
  {
    hide NoteStep, ConclusionStep, FactStatus;
  }

  lemma ConclusionOpIs(c: Ctx, f: Finding)
    ensures ConclusionOp(c, f).Some? || FactStatus(c.rules, c.person, f) != Absent
  {
  }

  lemma {:induction false} StepAccounted(c: Ctx, s: FindingPass, f: Finding, who: Chosen)
    ensures var t := FindingStep(c, s, f);
      && NoteOutcomes(t, who) == NoteOutcomes(s, who) + One(who(FindingId(f)))
      && ConclusionOutcomes(t, who) == ConclusionOutcomes(s, who)
                                       + One(FactStatus(c.rules, c.person, f) == Absent && who(FindingId(f)))
  {
    FindingStepIs(c, s, f);
    ConclusionOpIs(c, f);
    PresentAccounted(s, FindingId(f), who);
    hide *;
    NoteStepAccounted(c, s, f, who);
    if FactStatus(c.rules, c.person, f) == Absent {
      ConclusionStepAccounted(c, NoteStep(c, s, f), f, who);
    }
    OneIs(FactStatus(c.rules, c.person, f) == Absent, who(FindingId(f)));
  }

  lemma OneIs(a: bool, b: bool)
    ensures One(a && b) == if a then One(b) else 0
  {
  }

  lemma PresentAccounted(s: FindingPass, id: string, who: Chosen)
    ensures var t := s.(skipped := s.skipped + [Skip(id, AddNote, ConclusionPresent)]);
      && NoteOutcomes(t, who) == NoteOutcomes(s, who) + One(who(id))
      && ConclusionOutcomes(t, who) == ConclusionOutcomes(s, who)
  {
    CountSkipsPush(s.skipped, Skip(id, AddNote, ConclusionPresent), who);
    hide CountSkips, CountOps;
  }

  /** No accepted finding is lost or counted twice: of any choice of findings, there are as many note outcomes
      (operations or recorded skips) as findings, and as many conclusion outcomes as the person lacks conclusions. */
  lemma {:induction false} FindingsAccounted(c: Ctx, fs: seq<Finding>, who: Chosen)
    ensures NoteOutcomes(PlanFindings(c, fs), who) == CountFindings(fs, who)
    ensures ConclusionOutcomes(PlanFindings(c, fs), who) == CountAbsent(c, fs, who)
  {
    hide FindingStep, FactStatus, FindingId;
    if fs != [] {
      FindingsAccounted(c, fs[..|fs| - 1], who);
      StepAccounted(c, PlanFindings(c, fs[..|fs| - 1]), fs[|fs| - 1], who);
    }
  }

  /** The note outcome of a finding, by the branch of the loop that decides it. */
  ghost predicate NoteDecided(c: Ctx, p: FindingPass, f: Finding) {
    if FactStatus(c.rules, c.person, f) == Present then Skip(FindingId(f), AddNote, ConclusionPresent) in p.skipped
    else if NotePresentFor(c, f) then Skip(FindingId(f), AddNote, NotePresent) in p.skipped
    else NoteOp(c, f) in p.notes
  }

  /** The conclusion outcome of a finding whose conclusion the person lacks. */
  ghost predicate ConclusionDecided(c: Ctx, p: FindingPass, f: Finding) {
    if !c.opts.allowConclusions then Skip(FindingId(f), ConclusionType(f), ConclusionsDisabled) in p.skipped
    else
      || (ConclusionOp(c, f).Some? && ConclusionOp(c, f).value in p.facts)
      || Skip(FindingId(f), ConclusionType(f), SameConclusionPlanned) in p.skipped
      || (IsUnique(f.kind) && Skip(FindingId(f), AddFact, UniqueConclusionPlanned) in p.skipped)
  }

  lemma {:induction false} StepDecides(c: Ctx, s: FindingPass, f: Finding)
    ensures var t := FindingStep(c, s, f);
      && s.notes <= t.notes && s.facts <= t.facts && s.skipped <= t.skipped
      && NoteDecided(c, t, f) && (FactStatus(c.rules, c.person, f) == Absent ==> ConclusionDecided(c, t, f))
  {
    hide NotePresentFor, NoteOp, FindingId, ConclusionKey;
    ConclusionOpIs(c, f);
    hide FactStatus;
    var noted := NoteStep(c, s, f);
    assert s.notes <= noted.notes && s.skipped <= noted.skipped;
    assert !NotePresentFor(c, f) ==> noted.notes[|s.notes|] == NoteOp(c, f);
    assert NotePresentFor(c, f) ==> noted.skipped[|s.skipped|] == Skip(FindingId(f), AddNote, NotePresent);
    var t := ConclusionStep(c, noted, f);
    assert noted.skipped <= t.skipped && noted.facts <= t.facts && noted.notes == t.notes;
    LastIn(t.skipped);
    LastIn(t.facts);
    LastIn(FindingStep(c, s, f).skipped);
  }

  lemma LastIn<T>(xs: seq<T>)
    ensures xs != [] ==> xs[|xs| - 1] in xs
  {
  }

  lemma DecisionLasts(c: Ctx, p: FindingPass, q: FindingPass, f: Finding)
    requires p.notes <= q.notes && p.facts <= q.facts && p.skipped <= q.skipped
    ensures NoteDecided(c, p, f) ==> NoteDecided(c, q, f)
    ensures ConclusionDecided(c, p, f) ==> ConclusionDecided(c, q, f)
  {
    assert forall x <- p.notes :: x in q.notes;
    assert forall x <- p.facts :: x in q.facts;
    assert forall x <- p.skipped :: x in q.skipped;
    hide FactStatus, NotePresentFor, NoteOp, FindingId, ConclusionOp;
  }

  lemma {:induction false} EachDecided(c: Ctx, fs: seq<Finding>, f: Finding)
    requires f in fs
    ensures NoteDecided(c, PlanFindings(c, fs), f)
    ensures FactStatus(c.rules, c.person, f) == Absent ==> ConclusionDecided(c, PlanFindings(c, fs), f)
  {
    hide FindingStep, FactStatus, NoteDecided, ConclusionDecided;
    var n := |fs| - 1;
    var p := PlanFindings(c, fs[..n]);
    StepDecides(c, p, fs[n]);
    if f != fs[n] {
      EachDecided(c, fs[..n], f);
      DecisionLasts(c, p, PlanFindings(c, fs), f);
    }
  }

  lemma {:induction false} OneFinding(c: Ctx, fs: seq<Finding>, id: string)
    ensures id !in Ids(fs) ==> CountFindings(fs, Only(id)) == 0 && CountAbsent(c, fs, Only(id)) == 0
    ensures DistinctIds(fs) ==> forall f <- fs :: FindingId(f) == id ==>
      && CountFindings(fs, Only(id)) == 1
      && CountAbsent(c, fs, Only(id)) == One(FactStatus(c.rules, c.person, f) == Absent)
  {
    hide FactStatus, FindingId;
    if fs != [] {
      var n := |fs| - 1;
      OneFinding(c, fs[..n], id);
      IdsAt(fs, n);
      IdsMembers(fs);
      IdsMembers(fs[..n]);
      if DistinctIds(fs) {
        DistinctPrefix(fs, n);
        LastIdNew(fs);
      }
      hide Ids;
    }
  }

  lemma LastIdNew(fs: seq<Finding>)
    requires fs != [] && DistinctIds(fs)
    ensures FindingId(fs[|fs| - 1]) !in Ids(fs[..|fs| - 1])
  {
    var n := |fs| - 1;
    IdsAt(fs, n);
    forall i | 0 <= i < n ensures Ids(fs[..n])[i] != FindingId(fs[n]) {
      IdsAt(fs[..n], i);
      IdsAt(fs, i);
      assert Ids(fs)[i] != Ids(fs)[n];
    }
  }

  /** Each accepted finding has exactly one note outcome, the one its branch says; and exactly one conclusion outcome if
      the person lacks its conclusion, none otherwise. */
  lemma {:induction false} EachFindingAccounted(c: Ctx, fs: seq<Finding>, f: Finding)
    requires DistinctIds(fs) && f in fs
    ensures var p, own := PlanFindings(c, fs), Only(FindingId(f));
      && NoteDecided(c, p, f) && NoteOutcomes(p, own) == 1
      && (FactStatus(c.rules, c.person, f) == Absent ==> ConclusionDecided(c, p, f))
      && ConclusionOutcomes(p, own) == One(FactStatus(c.rules, c.person, f) == Absent)
  {
    EachDecided(c, fs, f);
    FindingsAccounted(c, fs, Only(FindingId(f)));
    OneFinding(c, fs, FindingId(f));
    hide *;
  }

  // ----- the theorem -----------------------------------------------------

  ghost predicate WellFormed(plan: Plan) {
    && DistinctOps(plan.operations)
    && (forall op <- plan.operations :: op.id == Fingerprint(op))
    && (forall i :: 0 <= i < |plan.operations| ==> DependsOnEarlierCreate(plan.operations, i))
    && (forall i :: 0 <= i < |plan.operations| && plan.operations[i].dependsOn.Some? ==>
          plan.operations[i].opType == AttachSource)
    && (forall k, i, j :: IsUnique(k) && 0 <= i < j < |plan.operations| ==>
          !(AddsFact(plan.operations[i], FactTypeOf(k).value) && AddsFact(plan.operations[j], FactTypeOf(k).value)))
  }

  function AcceptedIds(r: Rules, raws: seq<RawFinding>, opts: Options): seq<string> {
    Ids(TakeIn(r, opts.minConfidence, raws).accepted)
  }

  lemma NothingWellFormed()
    ensures DistinctOps([])
  {
  }

  /** Every plan `buildPlan` returns is well formed exactly when no two groups of accepted findings with operations of
      the same type join their ids to the same text, whatever the document holds; without commas in ids it always is. */
  lemma {:induction false} PlansWellFormed(r: Rules, pid: string, raws: seq<RawFinding>, doc: Document, opts: Options)
    ensures var out, fs := PlanFor(r, pid, raws, doc, opts), TakeIn(r, opts.minConfidence, raws).accepted;
      out.Planned? ==>
        && (out.plan.operations == [] ==> WellFormed(out.plan))
        && (out.plan.operations != [] ==>
             && FindPerson(doc.persons, pid).Some?
             && (WellFormed(out.plan)
                <==> TextsApart(Ctx(r, pid, doc, FindPerson(doc.persons, pid).value, opts), GroupsOf(fs))))
        && (CommaFree(AcceptedIds(r, raws, opts)) ==> WellFormed(out.plan))
  {
    hide TakeIn, IsPossiblyLiving, GroupsOf, PlanSources, PlanFindings, Operations, FindPerson, DistinctOps, CommaFree,
         GroupsApart, AddsFact, DependsOnEarlierCreate, TextsApart;
    var out := PlanFor(r, pid, raws, doc, opts);
    NothingWellFormed();
    if out.Planned? && out.plan.operations != [] {
      var fs := TakeIn(r, opts.minConfidence, raws).accepted;
      var c := Ctx(r, pid, doc, FindPerson(doc.persons, pid).value, opts);
      AcceptedIdsDistinct(r, opts.minConfidence, raws);
      OperationIdsDistinctIff(c, fs);
      if CommaFree(Ids(fs)) {
        CommaFreeApart(fs);
        OperationIdsDistinct(c, fs);
      }
      DependenciesEarlier(c, fs);
      AtMostOneUniqueFact(c, fs, Birth);
      AtMostOneUniqueFact(c, fs, Death);
    }
  }
}
