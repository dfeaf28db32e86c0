/** What `buildPlan` decides about a whole input: which findings it takes in, whether the person may be living, what it
    plans for each source and for each finding. */
module PlanDecisions {
  import opened Strings
  import opened Gedcomx
  import opened OpKeys
  import opened WriteFindings
  import opened WritePlan
  import opened PlanProperties
  import opened PlanMeaning

  // ----- which findings are taken in -----------------------------------------

  ghost predicate SpellsText(v: Field, t: Option<string>) {
    match t case Some(s) => v == Str(s) case None => v == Undefined
  }

  ghost predicate SpellsKind(v: Field, k: Kind) {
    v == Str(match k
             case NameVariant => "name_variant"
             case Birth => "birth"
             case Death => "death"
             case Marriage => "marriage"
             case Residence => "residence"
             case Relationship => "relationship")
  }

  /** The JSON value says what the finding says. */
  ghost predicate Spells(raw: RawFinding, f: Finding) {
    && raw.Raw? && SpellsKind(raw.kind, f.kind) && raw.value == Str(f.value) && raw.note == Str(f.note)
    && SpellsText(raw.date, f.date) && SpellsText(raw.place, f.place) && SpellsText(raw.sourceUrl, f.sourceUrl)
    && raw.sourceTitle == Str(f.sourceTitle) && raw.sourceId == Str(f.sourceId) && raw.factId == Str(f.factId)
    && raw.confidence.Num? && raw.confidence.finite && raw.confidence.value == f.confidence
  }

  lemma KindsSpelled(v: Field, k: Kind)
    ensures SpellsKind(v, k) <==> v.Str? && KindOf(v.text) == Some(k)
    ensures SpellsKind(v, k) <==> v == Str(KindName(k))
  {
    KindRoundTrip(k);
  }

  /** A value is taken in exactly if it spells an acceptable finding, and then it is that finding. */
  lemma AcceptedExactly(r: Rules, minConfidence: real, raw: RawFinding)
    ensures FindingProblem(r, raw, minConfidence) == None
      <==> exists f :: Spells(raw, f) && Acceptable(r, minConfidence, f)
    ensures forall f :: Spells(raw, f) && Acceptable(r, minConfidence, f) ==>
      FindingProblem(r, raw, minConfidence) == None && ToFinding(r, raw, minConfidence) == f
  {
    forall f | Spells(raw, f) && Acceptable(r, minConfidence, f)
      ensures FindingProblem(r, raw, minConfidence) == None && ToFinding(r, raw, minConfidence) == f
    {
      KindsSpelled(raw.kind, f.kind);
      hide KindOf, SpellsKind;
    }
    if FindingProblem(r, raw, minConfidence) == None {
      var f := ToFinding(r, raw, minConfidence);
      KindsSpelled(raw.kind, f.kind);
      hide KindOf, SpellsKind;
      assert Spells(raw, f) && Acceptable(r, minConfidence, f);
    }
  }

  /** The checks on a value, in their order. */
  ghost predicate Fails(r: Rules, raw: RawFinding, minConfidence: real, why: Reason) {
    match why
    case NotAnObject => raw.NotObject?
    case MissingIds => raw.Raw? && (!HasText(r, raw.sourceId) || !HasText(r, raw.factId))
    case MissingText =>
      raw.Raw? && (!HasText(r, raw.sourceTitle) || !HasText(r, raw.value) || !HasText(r, raw.note))
    case UnknownKind => raw.Raw? && forall k: Kind :: !SpellsKind(raw.kind, k)
    case NotStrings =>
      raw.Raw? && exists v :: (v == raw.date || v == raw.place || v == raw.sourceUrl) && !v.Str? && !v.Undefined?
    case BadConfidence =>
      raw.Raw? && !(raw.confidence.Num? && raw.confidence.finite && 0.0 <= raw.confidence.value <= 1.0)
    case LowConfidence => raw.Raw? && raw.confidence.Num? && raw.confidence.value < minConfidence
    case _ => false
  }

  ghost predicate HasText(r: Rules, v: Field) {
    v.Str? && !r.blank(v.text)
  }

  ghost function Rank(why: Reason): nat {
    match why
    case NotAnObject => 0
    case MissingIds => 1
    case MissingText => 2
    case UnknownKind => 3
    case NotStrings => 4
    case BadConfidence => 5
    case LowConfidence => 6
    case _ => 7
  }

  /** A value that is not taken in is dropped for the first check it fails. */
  lemma DroppedFor(r: Rules, minConfidence: real, raw: RawFinding, why: Reason)
    ensures FindingProblem(r, raw, minConfidence) == Some(why)
      <==> Fails(r, raw, minConfidence, why)
           && forall e: Reason :: Fails(r, raw, minConfidence, e) ==> Rank(why) <= Rank(e)
  {
    FirstFailure(r, minConfidence, raw);
    var p := FindingProblem(r, raw, minConfidence);
    assert Fails(r, raw, minConfidence, why) ==> Rank(why) < 7;
    assert p.Some? ==> Rank(p.value) < 7;
    hide Fails, FindingProblem;
  }

  lemma FirstFailure(r: Rules, minConfidence: real, raw: RawFinding)
    ensures var p := FindingProblem(r, raw, minConfidence);
      && (p.Some? ==> Fails(r, raw, minConfidence, p.value)
                      && forall e: Reason :: Fails(r, raw, minConfidence, e) ==> Rank(p.value) <= Rank(e))
      && (p.None? ==> forall e: Reason :: !Fails(r, raw, minConfidence, e))
  {
    if raw.Raw? {
      forall k: Kind ensures SpellsKind(raw.kind, k) <==> raw.kind.Str? && KindOf(raw.kind.text) == Some(k) {
        KindsSpelled(raw.kind, k);
      }
    }
    hide SpellsKind, KindOf;
  }

  // ----- the living ------------------------------------------------------------

  ghost predicate FirstBirth(facts: seq<Fact>, i: nat) {
    && i < |facts| && facts[i].factType == Some("http://gedcomx.org/Birth")
    && forall j :: 0 <= j < i ==> facts[j].factType != Some("http://gedcomx.org/Birth")
  }

  /** The year of a fact's formal date, or of the original one if there is no formal one. */
  ghost function FactYear(r: Rules, x: Fact): Option<nat> {
    match (x.formal, x.original)
    case (Some(t), _) => r.yearOf(t)
    case (None, Some(t)) => r.yearOf(t)
    case _ => None
  }

  ghost predicate BornIn(r: Rules, person: Person, year: nat) {
    exists i: nat :: FirstBirth(person.facts, i) && FactYear(r, person.facts[i]) == Some(year)
  }

  /** A person may be living if marked so, or if no death is known and the birth is less than 110 years ago or, when its
      year is unknown, the person is not marked as dead. */
  ghost predicate MayLive(r: Rules, person: Person, nowYear: int) {
    || person.living == Some(true)
    || ((forall x <- person.facts :: x.factType != Some("http://gedcomx.org/Death"))
        && if exists year: nat :: BornIn(r, person, year)
           then exists year: nat :: BornIn(r, person, year) && nowYear < year + 110
           else person.living != Some(false))
  }

  lemma {:induction false} BirthFound(facts: seq<Fact>) returns (i: nat)
    ensures match FindBirth(facts)
            case Some(x) => FirstBirth(facts, i) && facts[i] == x
            case None => forall j: nat :: !FirstBirth(facts, j)
  {
    TypesAre(Birth);
    hide FactTypeOf;
    if facts == [] {
      i := 0;
    } else if facts[0].factType == Some("http://gedcomx.org/Birth") {
      i := 0;
    } else {
      i := BirthFound(facts[1..]);
      forall j: nat | FirstBirth(facts, j) ensures j > 0 && FirstBirth(facts[1..], j - 1) {
        assert forall k :: 0 <= k < j - 1 ==> facts[1..][k] == facts[k + 1];
      }
      i := i + 1;
    }
  }

  lemma OneFirstBirth(facts: seq<Fact>, i: nat, j: nat)
    requires FirstBirth(facts, i) && FirstBirth(facts, j)
    ensures i == j
  {
  }

  lemma BirthYearMeans(r: Rules, person: Person, year: nat)
    ensures var birth := FindBirth(person.facts);
      BornIn(r, person, year) <==> birth.Some? && FactYear(r, birth.value) == Some(year)
  {
    var i := BirthFound(person.facts);
    forall j: nat | FirstBirth(person.facts, j) && FirstBirth(person.facts, i) ensures j == i {
      OneFirstBirth(person.facts, j, i);
    }
    hide FindBirth, FirstBirth, FactYear;
  }

  lemma YearsMean(r: Rules, x: Fact)
    ensures YearOf(r, if x.formal.Some? then x.formal else x.original) == FactYear(r, x)
  {
  }

  lemma LivingMeans(r: Rules, person: Person, nowYear: int)
    ensures IsPossiblyLiving(r, person, nowYear) <==> MayLive(r, person, nowYear)
  {
    TypesAre(Death);
    var birth := FindBirth(person.facts);
    forall year: nat
      ensures BornIn(r, person, year) <==> birth.Some? && FactYear(r, birth.value) == Some(year)
    {
      BirthYearMeans(r, person, year);
    }
    if birth.Some? {
      YearsMean(r, birth.value);
    }
    assert HasFact(person, GX + "Death")
      <==> exists x <- person.facts :: x.factType == Some("http://gedcomx.org/Death");
    hide FindBirth, BornIn, FactYear, YearOf, HasFact;
    if birth.Some? && FactYear(r, birth.value).Some? {
      assert BornIn(r, person, FactYear(r, birth.value).value);
    }
  }

  // ----- sources -------------------------------------------------------------

  /** The document's description is of the source of a finding: the same address, the marker of the source in a note, or
      the same title. */
  ghost predicate IsOf(r: Rules, d: Description, f: Finding) {
    || (f.sourceUrl.Some? && d.about == f.sourceUrl)
    || (exists n <- d.notes :: n.Some? && Contains(n.value, "[TRM-SOURCE:" + f.sourceId + "]"))
    || (r.norm(f.sourceTitle) != "" && exists t <- d.titles :: r.norm(t.GetOr("")) == r.norm(f.sourceTitle))
  }

  /** The id under which the source of a group is known: the declared one, else that of the first description of it. */
  ghost predicate KnownAs(c: Ctx, g: Group, id: Option<string>)
    requires g.members != []
  {
    var f, ds := g.members[0], c.doc.descriptions;
    if f.sourceId in c.opts.existingSources then id == Some(c.opts.existingSources[f.sourceId])
    else
      || (id == None && forall d <- ds :: !IsOf(c.rules, d, f))
      || exists i :: 0 <= i < |ds| && IsOf(c.rules, ds[i], f) && id == ds[i].id
                     && forall j :: 0 <= j < i ==> !IsOf(c.rules, ds[j], f)
  }

  lemma IsOfMeans(r: Rules, d: Description, g: Group)
    requires g.members != []
    ensures DescribesGroup(r, d, g) <==> IsOf(r, d, g.members[0])
  {
    assert SourceMarker(g.members[0]) == "[TRM-SOURCE:" + g.members[0].sourceId + "]";
    hide Contains;
  }

  lemma KnownMeans(c: Ctx, g: Group)
    requires g.members != []
    ensures KnownAs(c, g, ExistingId(c, g))
    ensures forall id :: KnownAs(c, g, id) ==> id == ExistingId(c, g)
  {
    var ds := c.doc.descriptions;
    var i := FirstDescriptionFound(c.rules, ds, g);
    forall d ensures DescribesGroup(c.rules, d, g) <==> IsOf(c.rules, d, g.members[0]) {
      IsOfMeans(c.rules, d, g);
    }
    hide DescribesGroup, IsOf;
    var f := g.members[0];
    forall j, k | 0 <= j < |ds| && 0 <= k < |ds| && IsOf(c.rules, ds[j], f) && IsOf(c.rules, ds[k], f)
                  && (forall l :: 0 <= l < j ==> !IsOf(c.rules, ds[l], f))
                  && (forall l :: 0 <= l < k ==> !IsOf(c.rules, ds[l], f))
      ensures j == k
    {
    }
  }

  /** A reference is to the description of its address or, if there is none, to that of its id. */
  ghost predicate RefersTo(s: SourceRef, id: string) {
    match s.description
    case Some(url) => id == DescriptionIdOf(Some(url))
    case None => id == DescriptionIdOf(s.descriptionId)
  }

  ghost predicate Refers(person: Person, id: string) {
    exists s <- person.sources :: RefersTo(s, id)
  }

  lemma {:induction false} RefersMeans(sources: seq<SourceRef>, id: string)
    ensures id in AttachedIds(sources) <==> exists s <- sources :: RefersTo(s, id)
  {
    hide DescriptionIdOf;
    if sources != [] {
      var s := sources[|sources| - 1];
      RefersMeans(sources[..|sources| - 1], id);
      assert sources == sources[..|sources| - 1] + [s];
      assert RefersTo(s, id) <==> id == DescriptionIdOf(if s.description.Some? then s.description else s.descriptionId);
      hide RefersTo;
    }
  }

  /** The source is known under a usable id. */
  ghost predicate Known(c: Ctx, g: Group)
    requires g.members != []
  {
    exists id :: KnownAs(c, g, Some(id)) && id != ""
  }

  /** And the person refers to it. */
  ghost predicate Cited(c: Ctx, g: Group)
    requires g.members != []
  {
    exists id :: KnownAs(c, g, Some(id)) && id != "" && Refers(c.person, id)
  }

  lemma NeedsMean(c: Ctx, g: Group)
    requires g.members != []
    ensures NeedsCreate(c, g) <==> !Known(c, g)
    ensures NeedsAttach(c, g) <==> !Cited(c, g)
  {
    KnownMeans(c, g);
    if ExistingId(c, g).Some? {
      RefersMeans(c.person.sources, ExistingId(c, g).value);
    }
    hide KnownAs, ExistingId, AttachedIds;
    if Truthy(ExistingId(c, g)) {
      assert KnownAs(c, g, Some(ExistingId(c, g).value));
    }
  }

  ghost function Creates(c: Ctx, gs: seq<Group>): seq<Op>
    requires Inhabited(gs)
  {
    if gs == [] then []
    else
      var g := gs[|gs| - 1];
      Creates(c, gs[..|gs| - 1]) + (if Known(c, g) then [] else [CreateOp(c, g)])
  }

  ghost function Attaches(c: Ctx, gs: seq<Group>): seq<Op>
    requires Inhabited(gs)
  {
    if gs == [] then []
    else
      var g := gs[|gs| - 1];
      Attaches(c, gs[..|gs| - 1]) + (if Cited(c, g) then [] else [AttachOp(c, g)])
  }

  ghost function KnownSkips(c: Ctx, gs: seq<Group>): seq<Skip>
    requires Inhabited(gs)
  {
    if gs == [] then []
    else
      var g := gs[|gs| - 1];
      var id := FindingId(g.members[0]);
      KnownSkips(c, gs[..|gs| - 1])
        + (if Known(c, g) then [Skip(id, CreateSource, DescriptionPresent)] else [])
        + (if Cited(c, g) then [Skip(id, AttachSource, AlreadyAttached)] else [])
  }

  /** The loop over the groups plans a description for each source that is not known and an attachment for each that the
      person does not refer to, and records the others. */
  lemma {:induction false} SourcesPlanned(c: Ctx, gs: seq<Group>)
    requires Inhabited(gs)
    ensures PlanSources(c, gs) == SourcePass(Creates(c, gs), Attaches(c, gs), KnownSkips(c, gs))
  {
    if gs != [] {
      SourcesPlanned(c, gs[..|gs| - 1]);
      NeedsMean(c, gs[|gs| - 1]);
      hide NeedsCreate, NeedsAttach, Known, Cited, CreateOp, AttachOp, FindingId;
    }
  }

  // ----- what the operations say -----------------------------------------------

  function NoteTexts(fs: seq<Finding>): seq<string> {
    if fs == [] then [] else [fs[0].note] + NoteTexts(fs[1..])
  }

  lemma {:induction false} NotesJoined(fs: seq<Finding>)
    ensures JoinedNotes(fs) == Join(NoteTexts(fs), '\n') && |NoteTexts(fs)| == |fs|
  {
    if fs != [] {
      NotesJoined(fs[1..]);
    }
  }

  /** A new description has the address and title of its source, and the marker and all notes of its findings. */
  lemma CreateReads(c: Ctx, g: Group)
    requires g.members != []
    ensures var op, f := CreateOp(c, g), g.members[0];
      && op.id == "create_source_description|" + Join(Sort(Ids(g.members)), ',')
      && op.opType == CreateSource && op.findingIds == Ids(g.members) && op.dependsOn == None && op.existingId == None
      && op.body == SourceBody(if f.sourceUrl == Some("") then None else f.sourceUrl, f.sourceTitle,
                               "[TRM-SOURCE:" + f.sourceId + "] " + Join(NoteTexts(g.members), '\n'))
  {
    NotesJoined(g.members);
    var f, notes := g.members[0], JoinedNotes(g.members);
    assert SourceMarker(f) + " " + notes == "[TRM-SOURCE:" + f.sourceId + "] " + notes;
    hide JoinedNotes, NoteTexts, Join, Ids, Sort;
  }

  lemma KeyText(t: OpType, ids: seq<string>)
    ensures OpKey(t, ids) == TypeName(t) + "|" + Join(Sort(ids), ',')
  {
    hide Join, Sort, TypeName;
  }

  lemma {:induction false} TagsMean(c: Ctx, fs: seq<Finding>)
    ensures Distinct(Tags(c, fs))
    ensures forall t :: t in Tags(c, fs) <==> exists f <- fs ::
      && IsFact(f.kind) && t == TypeText(f.kind)
      && (Shows(c.rules, c.person, f) || (c.opts.allowConclusions && Lacks(c.rules, c.person, f)))
  {
    hide TypeText, Shows, Lacks, FactStatus, FactTypeOf, IsFact;
    if fs != [] {
      var f := fs[|fs| - 1];
      TagsMean(c, fs[..|fs| - 1]);
      StatusMeans(c.rules, c.person, f);
      TypesAre(f.kind);
      assert fs == fs[..|fs| - 1] + [f];
    }
  }

  /** An attachment refers to the description planned for its source if that is not known, and then depends on it, else
      to the known one; it is tagged with the types of the conclusions its findings support. */
  lemma AttachReads(c: Ctx, g: Group)
    requires g.members != []
    ensures var op := AttachOp(c, g);
      && op.id == "attach_source|" + Join(Sort(Ids(g.members)), ',')
      && op.opType == AttachSource && op.findingIds == Ids(g.members) && KnownAs(c, g, op.existingId)
      && op.body.AttachBody? && op.body.tags == Tags(c, g.members)
      && if Known(c, g) then
           op.dependsOn == None && op.existingId.Some? && op.body.description == "@sd:" + op.existingId.value
         else
           op.dependsOn == Some(CreateOp(c, g).id) && op.body.description == "@op:" + CreateOp(c, g).id
  {
    KnownMeans(c, g);
    NeedsMean(c, g);
    KeyText(AttachSource, Ids(g.members));
    hide KnownAs, Known, Cited, ExistingId, Tags, Ids, NeedsAttach, OpKey, Join, Sort;
  }

  function KindTitle(k: Kind): string {
    match k
    case NameVariant => "Name variant"
    case Birth => "Birth"
    case Death => "Death"
    case Marriage => "Marriage"
    case Residence => "Residence"
    case Relationship => "Relationship"
  }

  function LineFor(heading: string, t: Option<string>): seq<string> {
    match t case Some(s) => (if s == "" then [] else [heading + s]) case None => []
  }

  /** The lines of a note. */
  ghost function NoteLines(c: Ctx, f: Finding): seq<string> {
    var url := match f.sourceUrl { case Some(u) => (if u == "" then "" else " (" + u + ")") case None => "" };
    var differs := if Contradicts(c.rules, c.person, f)
                   then ["Differs from the existing conclusion; offered for review, not applied."] else [];
    [KindTitle(f.kind) + ": " + f.value]
    + (LineFor("Date: ", f.date) + (LineFor("Place: ", f.place)
       + (["Source: " + f.sourceTitle + url] + (differs + [f.note, "[TRM:" + f.sourceId + "/" + f.factId + "]"]))))
  }

  lemma JoinCons(line: string, rest: seq<string>)
    requires rest != []
    ensures Join([line] + rest, '\n') == line + "\n" + Join(rest, '\n')
  {
    assert ([line] + rest)[1..] == rest;
  }

  lemma JoinOptional(heading: string, t: Option<string>, rest: seq<string>)
    requires rest != []
    ensures Join(LineFor(heading, t) + rest, '\n') == Line(heading, t) + Join(rest, '\n')
  {
    if t.Some? && t.value != "" {
      JoinCons(heading + t.value, rest);
    } else {
      assert LineFor(heading, t) + rest == rest;
    }
  }

  /** A note has these lines. */
  lemma NoteReads(c: Ctx, f: Finding)
    ensures var op := NoteOp(c, f);
      && op.id == "add_note|" + f.sourceId + "/" + f.factId
      && op.opType == AddNote && op.findingIds == [f.sourceId + "/" + f.factId] && op.dependsOn == None
      && op.body == NoteBody(c.pid, "TRM research: " + KindTitle(f.kind), Join(NoteLines(c, f), '\n'))
  {
    StatusMeans(c.rules, c.person, f);
    TextIsLines(c, f);
    OneIdKey(AddNote, FindingId(f));
    hide NoteText, NoteLines, Contradicts, FactStatus, Join, OpKey;
  }

  lemma TextIsLines(c: Ctx, f: Finding)
    ensures NoteText(f, FactStatus(c.rules, c.person, f)) == Join(NoteLines(c, f), '\n')
  {
    StatusMeans(c.rules, c.person, f);
    var url := if Truthy(f.sourceUrl) then " (" + f.sourceUrl.value + ")" else "";
    var differs := "Differs from the existing conclusion; offered for review, not applied.";
    var shown := if FactStatus(c.rules, c.person, f) == Conflict then [differs] else [];
    var head, source := KindTitle(f.kind) + ": " + f.value, "Source: " + f.sourceTitle + url;
    LinesSplit(c, f, url, shown);
    TextSplit(f, FactStatus(c.rules, c.person, f), url);
    hide *;
    JoinLines(head, f.date, f.place, source, shown, f.note, "[TRM:" + f.sourceId + "/" + f.factId + "]");
    assert shown != [] ==> shown == [differs];
    SameText(KindTitle(f.kind), f.value, Line("Date: ", f.date), Line("Place: ", f.place), f.sourceTitle, url,
             if shown == [] then "" else differs + "\n", f.note, "[TRM:" + f.sourceId + "/" + f.factId + "]");
  }

  lemma LinesSplit(c: Ctx, f: Finding, url: string, shown: seq<string>)
    requires url == if Truthy(f.sourceUrl) then " (" + f.sourceUrl.value + ")" else ""
    requires shown == if Contradicts(c.rules, c.person, f)
                      then ["Differs from the existing conclusion; offered for review, not applied."] else []
    ensures NoteLines(c, f)
         == [KindTitle(f.kind) + ": " + f.value]
            + (LineFor("Date: ", f.date) + (LineFor("Place: ", f.place)
               + (["Source: " + f.sourceTitle + url]
                  + (shown + [f.note, "[TRM:" + f.sourceId + "/" + f.factId + "]"]))))
  {
    hide Contradicts, KindTitle, LineFor;
  }

  lemma TextSplit(f: Finding, status: Status, url: string)
    requires url == if Truthy(f.sourceUrl) then " (" + f.sourceUrl.value + ")" else ""
    ensures NoteText(f, status)
         == KindTitle(f.kind) + ": " + f.value + "\n" + Line("Date: ", f.date) + Line("Place: ", f.place) + "Source: "
            + f.sourceTitle + url + "\n"
            + (if status == Conflict
               then "Differs from the existing conclusion; offered for review, not applied." + "\n" else "")
            + f.note + "\n" + ("[TRM:" + f.sourceId + "/" + f.factId + "]")
  {
    MarkerIs(f);
    assert KindTitle(f.kind) == KindLabel(f.kind);
    assert "Differs from the existing conclusion; offered for review, not applied." + "\n"
        == "Differs from the existing conclusion; offered for review, not applied.\n";
    hide Marker, Line, KindTitle, KindLabel;
  }

  lemma MarkerIs(f: Finding)
    ensures Marker(f) == "[TRM:" + f.sourceId + "/" + f.factId + "]"
  {
  }

  lemma JoinTail(shown: seq<string>, note: string, marker: string)
    requires |shown| <= 1
    ensures Join(shown + [note, marker], '\n')
         == (if shown == [] then "" else shown[0] + "\n") + (note + "\n" + marker)
  {
    JoinCons(note, [marker]);
    assert [note, marker] == [note] + [marker] && Join([marker], '\n') == marker;
    hide Join;
    if shown == [] {
      assert shown + [note, marker] == [note, marker];
    } else {
      assert shown + [note, marker] == [shown[0]] + [note, marker];
      JoinCons(shown[0], [note, marker]);
    }
  }

  lemma JoinHead(head: string, date: Option<string>, place: Option<string>, rest: seq<string>)
    requires rest != []
    ensures Join([head] + (LineFor("Date: ", date) + (LineFor("Place: ", place) + rest)), '\n')
         == head + "\n" + (Line("Date: ", date) + (Line("Place: ", place) + Join(rest, '\n')))
  {
    hide *;
    JoinOptional("Place: ", place, rest);
    JoinOptional("Date: ", date, LineFor("Place: ", place) + rest);
    JoinCons(head, LineFor("Date: ", date) + (LineFor("Place: ", place) + rest));
  }

  lemma JoinLines(head: string, date: Option<string>, place: Option<string>, source: string, shown: seq<string>,
                  note: string, marker: string)
    requires |shown| <= 1
    ensures Join([head] + (LineFor("Date: ", date) + (LineFor("Place: ", place)
                 + ([source] + (shown + [note, marker])))), '\n')
         == head + "\n" + (Line("Date: ", date) + (Line("Place: ", place) + (source + "\n"
              + ((if shown == [] then "" else shown[0] + "\n") + (note + "\n" + marker)))))
  {
    hide *;
    var tail := shown + [note, marker];
    JoinTail(shown, note, marker);
    JoinCons(source, tail);
    JoinHead(head, date, place, [source] + tail);
  }

  /** However the pieces of the text are put together. */
  lemma SameText(kind: string, value: string, date: string, place: string, title: string, url: string, differs: string,
                 note: string, marker: string)
    ensures kind + ": " + value + "\n" + date + place + "Source: " + title + url + "\n" + differs + note + "\n" + marker
         == (kind + ": " + value) + "\n" + (date + (place + (("Source: " + title + url) + "\n"
              + (differs + (note + "\n" + marker)))))
  {
  }

  /** A conclusion says what its finding says of the person. */
  lemma ConclusionReads(c: Ctx, f: Finding)
    requires ConclusionOp(c, f).Some?
    ensures var op := ConclusionOp(c, f).value;
      && op.id == (if f.kind == NameVariant then "add_name|" else "add_fact|") + f.sourceId + "/" + f.factId
      && op.findingIds == [f.sourceId + "/" + f.factId] && op.dependsOn == None
      && if f.kind == NameVariant then op.opType == AddName && op.body == NameBody(c.pid, f.value)
         else
           && op.opType == AddFact && IsFact(f.kind)
           && op.body == FactBody(c.pid, TypeText(f.kind), if f.date == Some("") then None else f.date,
                                  if f.place == Some("") then None else f.place)
  {
    TypesAre(f.kind);
    OneIdKey(AddName, FindingId(f));
    OneIdKey(AddFact, FindingId(f));
    hide TypeText, FactTypeOf, IsFact, OpKey;
  }

  lemma OneIdKey(t: OpType, id: string)
    ensures OpKey(t, [id]) == TypeName(t) + "|" + id
  {
    assert Sort([id]) == [id] by { assert [id][1..] == []; }
  }

  // ----- the whole plan ----------------------------------------------------------

  /** Three to thirty-one letters, digits and hyphens, the first no hyphen. */
  predicate WellShaped(id: string) {
    && 3 <= |id| < 32 && id[0] != '-'
    && forall ch <- id :: 'a' <= ch <= 'z' || 'A' <= ch <= 'Z' || '0' <= ch <= '9' || ch == '-'
  }

  /** The id declared for the source of a group is malformed. */
  ghost predicate Malformed(c: Ctx, g: Group)
    requires g.members != []
  {
    var source := g.members[0].sourceId;
    source in c.opts.existingSources && !WellShaped(c.opts.existingSources[source])
  }

  lemma MalformedMeans(c: Ctx, g: Group)
    requires g.members != []
    ensures BadDeclaration(c, g) <==> Malformed(c, g)
  {
    if g.members[0].sourceId in c.opts.existingSources {
      ShapeMeans(c.opts.existingSources[g.members[0].sourceId]);
    }
    hide WellShaped, ValidDescriptionId;
  }

  lemma ShapeMeans(id: string)
    ensures ValidDescriptionId(id) <==> WellShaped(id)
  {
    assert |id| > 0 ==> id[0] in id;
  }

  /** What a plan that comes about holds. */
  ghost predicate Holds(c: Ctx, fs: seq<Finding>, plan: Plan) {
    GroupsInhabited(fs);
    var gs := GroupsOf(fs);
    && plan.pid == c.pid
    && plan.operations == Creates(c, gs) + Attaches(c, gs) + Notes(c, fs) + Conclusions(c, fs)
    && plan.skipped == KnownSkips(c, gs) + Skips(c, fs)
    && forall j :: 0 <= j < |fs| ==> Decided(c, fs, j, plan.operations, plan.skipped)
  }

  lemma {:induction false} SourcesTyped(c: Ctx, gs: seq<Group>)
    requires Inhabited(gs)
    ensures OfSources(Creates(c, gs) + Attaches(c, gs), KnownSkips(c, gs))
  {
    if gs != [] {
      var g := gs[|gs| - 1];
      SourcesTyped(c, gs[..|gs| - 1]);
      CreateReads(c, g);
      AttachReads(c, g);
      hide CreateOp, AttachOp, Known, Cited, KnownAs, Tags, Ids, Join, FindingId;
    }
  }

  lemma PlanHolds(c: Ctx, intake: Intake)
    requires DistinctIds(intake.accepted) && PlanAccepted(c, intake).Planned?
    ensures Holds(c, intake.accepted, PlanAccepted(c, intake).plan)
    ensures PlanAccepted(c, intake).plan.dropped == intake.dropped
  {
    var fs, plan := intake.accepted, PlanAccepted(c, intake).plan;
    GroupsInhabited(fs);
    var gs := GroupsOf(fs);
    SourcesPlanned(c, gs);
    FindingsPlanned(c, fs);
    SourcesTyped(c, gs);
    hide PlanSources, PlanFindings, GroupsOf, Creates, Attaches, KnownSkips, Notes, Conclusions, Skips, DistinctIds,
         Decided, OfSources, SeenIs;
    forall j | 0 <= j < |fs| ensures Decided(c, fs, j, plan.operations, plan.skipped) {
      FindingDecided(c, fs, j, Creates(c, gs) + Attaches(c, gs), KnownSkips(c, gs));
    }
  }

  lemma BadIdThrown(c: Ctx, intake: Intake)
    ensures PlanAccepted(c, intake).BadDeclaredId?
      <==> exists g <- GroupsOf(intake.accepted) :: g.members != [] && Malformed(c, g)
  {
    GroupsInhabited(intake.accepted);
    forall g <- GroupsOf(intake.accepted) ensures g.members != [] && (BadDeclaration(c, g) <==> Malformed(c, g)) {
      MalformedMeans(c, g);
    }
    hide BadDeclaration, Malformed, GroupsOf, PlanSources, PlanFindings;
  }

  /** What `buildPlan` makes of its input: nothing for a missing person or one that may be living; an exception exactly
      for a malformed declared id; else the plan that the texts of findings, person and document call for. */
  lemma PlanDecides(r: Rules, pid: string, raws: seq<RawFinding>, doc: Document, opts: Options)
    ensures var out, intake, found := PlanFor(r, pid, raws, doc, opts), TakeIn(r, opts.minConfidence, raws),
                                      FindPerson(doc.persons, pid);
      && (found == None ==> out == Planned(Plan(pid, [], [], [Drop("*", PersonMissing)])))
      && (found.Some? && MayLive(r, found.value, opts.nowYear) ==>
            && out.Planned? && out.plan.pid == pid && out.plan.operations == [] && out.plan.skipped == []
            && |out.plan.dropped| == |raws|
            && forall i :: 0 <= i < |raws| ==> out.plan.dropped[i] == Drop(SafeFindingId(raws[i]), PossiblyLiving))
      && (found.Some? && !MayLive(r, found.value, opts.nowYear) ==>
            var c := Ctx(r, pid, doc, found.value, opts);
            && (out.BadDeclaredId?
                <==> exists g <- GroupsOf(intake.accepted) :: g.members != [] && Malformed(c, g))
            && (out.Planned? ==> Holds(c, intake.accepted, out.plan) && out.plan.dropped == intake.dropped))
  {
    var found := FindPerson(doc.persons, pid);
    if found.Some? {
      LivingMeans(r, found.value, opts.nowYear);
      var c, intake := Ctx(r, pid, doc, found.value, opts), TakeIn(r, opts.minConfidence, raws);
      AcceptedIdsDistinct(r, opts.minConfidence, raws);
      BadIdThrown(c, intake);
      if PlanAccepted(c, intake).Planned? {
        PlanHolds(c, intake);
      }
    }
    hide IsPossiblyLiving, MayLive, PlanAccepted, TakeIn, GroupsOf, Malformed, Holds, FindPerson, SafeFindingId;
  }

  /** The ids under which values that are not taken in are dropped. */
  lemma IdsShown(raw: RawFinding)
    ensures forall f :: Spells(raw, f) ==> SafeFindingId(raw) == f.sourceId + "/" + f.factId
    ensures raw.NotObject? ==> SafeFindingId(raw) == "?/?"
    ensures raw.Raw? && raw.sourceId in {Undefined, Null} && raw.factId.Str? ==>
      SafeFindingId(raw) == "?/" + raw.factId.text
    ensures raw.Raw? && raw.sourceId.Str? && raw.factId in {Undefined, Null} ==>
      SafeFindingId(raw) == raw.sourceId.text + "/?"
  {
  }

  /** The dates of a fact and a finding agree as its kind asks. */
  ghost predicate AgreesInDate(r: Rules, x: Fact, f: Finding) {
    if f.kind == Residence then SameDate(r, x, f.date) else SameUniqueDate(r, x, f.date)
  }

  /** A fact of the finding's type agrees in date, and the normalised pieces of one place are all pieces of the
      other. */
  ghost predicate AmongFacts(r: Rules, person: Person, f: Finding, wanted: seq<string>, places: seq<seq<string>>)
    requires |places| == |person.facts|
  {
    exists i :: 0 <= i < |places|
                && person.facts[i].factType == Some(TypeText(f.kind)) && AgreesInDate(r, person.facts[i], f)
                && PiecesAgree(r, places[i], wanted)
  }

  lemma ShownByPieces(r: Rules, person: Person, f: Finding, wanted: seq<string>, places: seq<seq<string>>)
    requires IsFact(f.kind) && f.place.Some? && !r.blank(f.place.value) && SpelledAs(f.place, wanted)
    requires |places| == |person.facts|
    requires forall i :: 0 <= i < |places| ==> SpelledAs(person.facts[i].place, places[i])
    ensures Shows(r, person, f) <==> Stated(f) && AmongFacts(r, person, f, wanted, places)
  {
    forall i | 0 <= i < |places|
      ensures SamePlace(r, person.facts[i].place, f.place) <==> PiecesAgree(r, places[i], wanted)
    {
      SpellingDecides(r, person.facts[i].place, f.place, places[i], wanted);
    }
    hide SpelledAs, SamePlace, PiecesAgree, SameDate, SameUniqueDate, TypeText;
  }

  lemma HoldsFor(c: Ctx, fs: seq<Finding>, plan: Plan, j: nat)
    requires Holds(c, fs, plan) && j < |fs|
    ensures Decided(c, fs, j, plan.operations, plan.skipped)
  {
    hide Decided, Creates, Attaches, Notes, Conclusions, KnownSkips, Skips, GroupsOf;
  }

  /** The operation writes a conclusion of the finding, or the skip says why not. */
  ghost predicate Concluded(plan: Plan, id: string) {
    || (exists op <- plan.operations :: (op.opType == AddFact || op.opType == AddName) && op.findingIds == [id])
    || exists s <- plan.skipped :: s.findingId == id && (s.opType == AddFact || s.opType == AddName)
  }

  ghost predicate HasNote(plan: Plan, id: string) {
    || Skip(id, AddNote, NotePresent) in plan.skipped
    || exists op <- plan.operations :: op.opType == AddNote && op.findingIds == [id]
  }

  lemma OutcomesAre(c: Ctx, fs: seq<Finding>, plan: Plan, j: nat)
    requires j < |fs| && Decided(c, fs, j, plan.operations, plan.skipped)
    ensures var id, shown := FindingId(fs[j]), Shows(c.rules, c.person, fs[j]);
      && (Skip(id, AddNote, ConclusionPresent) in plan.skipped <==> shown)
      && (HasNote(plan, id) <==> !shown) && (Concluded(plan, id) <==> Lacks(c.rules, c.person, fs[j]))
    ensures fs[j].kind == Residence ==>
      (Lacks(c.rules, c.person, fs[j]) <==> Stated(fs[j]) && !Shows(c.rules, c.person, fs[j]))
  {
    assert Leads(c, fs, j) ==> Lacks(c.rules, c.person, fs[j]);
    hide FindingId, Shows, Marked, Leads;
  }

  /** A finding with a stated place, however that and the places of the facts are spelled: it is skipped as present
      exactly if it is among the facts; otherwise it has its note, and a residence its conclusion or a record of why
      not. */
  lemma PlacesDecide(r: Rules, pid: string, raws: seq<RawFinding>, doc: Document, opts: Options, person: Person, j: nat,
                     wanted: seq<string>, places: seq<seq<string>>)
    requires FindPerson(doc.persons, pid) == Some(person) && !MayLive(r, person, opts.nowYear)
    requires PlanFor(r, pid, raws, doc, opts).Planned? && j < |TakeIn(r, opts.minConfidence, raws).accepted|
    requires var f := TakeIn(r, opts.minConfidence, raws).accepted[j];
      IsFact(f.kind) && f.place.Some? && !r.blank(f.place.value) && SpelledAs(f.place, wanted)
    requires |places| == |person.facts|
    requires forall i :: 0 <= i < |places| ==> SpelledAs(person.facts[i].place, places[i])
    ensures var f, plan := TakeIn(r, opts.minConfidence, raws).accepted[j], PlanFor(r, pid, raws, doc, opts).plan;
      var present := Stated(f) && AmongFacts(r, person, f, wanted, places);
      && (Skip(FindingId(f), AddNote, ConclusionPresent) in plan.skipped <==> present)
      && (HasNote(plan, FindingId(f)) <==> !present)
      && (f.kind == Residence ==> (Concluded(plan, FindingId(f)) <==> Stated(f) && !present))
  {
    var f, plan := TakeIn(r, opts.minConfidence, raws).accepted[j], PlanFor(r, pid, raws, doc, opts).plan;
    PlanDecides(r, pid, raws, doc, opts);
    var c, fs := Ctx(r, pid, doc, person, opts), TakeIn(r, opts.minConfidence, raws).accepted;
    hide *;
    ShownByPieces(r, person, f, wanted, places);
    HoldsFor(c, fs, plan, j);
    OutcomesAre(c, fs, plan, j);
  }

  /** "San Diego" is not "San Francisco", whatever state both are in; a piece more on one side does not matter. */
  lemma SanDiegoIsNotSanFrancisco(r: Rules)
    requires r.norm("San Diego") != "" && r.norm("San Francisco") != "" && r.norm("California") != ""
    requires r.norm("San Diego") != r.norm("San Francisco")
    requires r.norm("San Diego") != r.norm("California") && r.norm("San Francisco") != r.norm("California")
    ensures !PiecesAgree(r, ["San Diego", "California"], ["San Francisco", "California"])
    ensures PiecesAgree(r, ["San Diego"], ["San Diego", "California"])
  {
    var a, b, d := ["San Diego", "California"], ["San Francisco", "California"], ["San Diego"];
    assert a[0] in a && b[0] in b && d[0] in d;
  }
}
