/** What `buildPlan` decides about each finding, in terms of its own texts and the person's. */
module PlanMeaning {
  import opened Strings
  import opened Gedcomx
  import opened OpKeys
  import opened WriteFindings
  import opened WritePlan
  import opened PlanProperties

  // ----- places ----------------------------------------------------------

  /** A place is spelled as pieces between commas. */
  ghost predicate SpelledAs(place: Option<string>, pieces: seq<string>) {
    |pieces| >= 1 && (forall p <- pieces :: ',' !in p) && place.GetOr("") == Join(pieces, ',')
  }

  ghost predicate HasPart(r: Rules, pieces: seq<string>) {
    exists p <- pieces :: r.norm(p) != ""
  }

  /** Every piece of `b` that does not normalise to nothing is, normalised, a piece of `a`. */
  ghost predicate Covers(r: Rules, a: seq<string>, b: seq<string>) {
    forall q <- b :: r.norm(q) != "" ==> exists p <- a :: r.norm(p) == r.norm(q)
  }

  /** Two places agree if whole pieces of one are all pieces of the other. */
  ghost predicate PiecesAgree(r: Rules, a: seq<string>, b: seq<string>) {
    HasPart(r, a) && HasPart(r, b) && (Covers(r, a, b) || Covers(r, b, a))
  }

  /** An unstated place agrees with any; else the pieces decide. */
  ghost predicate SamePlace(r: Rules, existing: Option<string>, wanted: Option<string>) {
    || wanted.None? || r.blank(wanted.value)
    || exists a, b :: SpelledAs(existing, a) && SpelledAs(wanted, b) && PiecesAgree(r, a, b)
  }

  lemma {:induction false} JoinSplit(s: string, c: char)
    ensures Join(Split(s, c), c) == s
  {
    if s != "" {
      JoinSplit(s[1..], c);
      var rest := Split(s[1..], c);
      if s[0] == c {
        assert ([""] + rest)[1..] == rest;
        assert s == [c] + s[1..];
      } else {
        assert ([[s[0]] + rest[0]] + rest[1..])[1..] == rest[1..];
        assert s == [s[0]] + s[1..];
      }
    }
  }

  /** Every place is spelled in exactly one way. */
  lemma SpelledOnce(place: Option<string>, pieces: seq<string>)
    ensures SpelledAs(place, pieces) <==> pieces == Split(place.GetOr(""), ',')
  {
    JoinSplit(place.GetOr(""), ',');
    SplitPiecesPlain(place.GetOr(""), ',');
    if SpelledAs(place, pieces) {
      SplitJoin(pieces, ',');
    }
  }

  lemma {:induction false} NormedMembers(r: Rules, pieces: seq<string>, t: string)
    ensures t in NormedParts(r, pieces) <==> t != "" && exists p <- pieces :: r.norm(p) == t
  {
    if pieces != [] {
      NormedMembers(r, pieces[1..], t);
      assert pieces == [pieces[0]] + pieces[1..];
    }
  }

  /** The normalised parts of the pieces. */
  ghost predicate PartsOf(r: Rules, pieces: seq<string>, parts: seq<string>) {
    forall t :: t in parts <==> t != "" && exists p <- pieces :: r.norm(p) == t
  }

  lemma PartsAre(r: Rules, pieces: seq<string>)
    ensures PartsOf(r, pieces, NormedParts(r, pieces))
    ensures NormedParts(r, pieces) != [] <==> HasPart(r, pieces)
  {
    forall t ensures t in NormedParts(r, pieces) <==> t != "" && exists p <- pieces :: r.norm(p) == t {
      NormedMembers(r, pieces, t);
    }
    assert NormedParts(r, pieces) != [] ==> NormedParts(r, pieces)[0] in NormedParts(r, pieces);
    hide NormedParts;
  }

  lemma CoverMeans(r: Rules, a: seq<string>, b: seq<string>, aParts: seq<string>, bParts: seq<string>)
    requires PartsOf(r, a, aParts) && PartsOf(r, b, bParts)
    ensures AllIn(bParts, aParts) <==> Covers(r, a, b)
  {
    if Covers(r, a, b) {
      forall t <- bParts ensures t in aParts {
        var q :| q in b && r.norm(q) == t;
        var p :| p in a && r.norm(p) == r.norm(q);
      }
    }
    if AllIn(bParts, aParts) {
      forall q <- b | r.norm(q) != "" ensures exists p <- a :: r.norm(p) == r.norm(q) {
        assert r.norm(q) in bParts;
      }
    }
  }

  /** However two places are spelled, their pieces decide. */
  lemma SpellingDecides(r: Rules, existing: Option<string>, wanted: Option<string>, a: seq<string>, b: seq<string>)
    requires SpelledAs(existing, a) && SpelledAs(wanted, b) && wanted.Some? && !r.blank(wanted.value)
    ensures SamePlace(r, existing, wanted) <==> PiecesAgree(r, a, b)
  {
    forall x, y | SpelledAs(existing, x) && SpelledAs(wanted, y) ensures x == a && y == b {
      SpelledOnce(existing, x);
      SpelledOnce(wanted, y);
      SpelledOnce(existing, a);
      SpelledOnce(wanted, b);
    }
    hide SpelledAs, PiecesAgree;
  }

  lemma PlaceMeans(r: Rules, existing: Option<string>, wanted: Option<string>)
    ensures PlaceAgrees(r, existing, wanted) <==> SamePlace(r, existing, wanted)
  {
    if wanted.Some? && !r.blank(wanted.value) {
      var a, b := Split(existing.GetOr(""), ','), Split(wanted.GetOr(""), ',');
      PartsAre(r, a);
      PartsAre(r, b);
      CoverMeans(r, a, b, NormedParts(r, a), NormedParts(r, b));
      CoverMeans(r, b, a, NormedParts(r, b), NormedParts(r, a));
      assert PiecesAgree(r, a, b) <==> PlaceAgrees(r, existing, wanted) by {
        hide Covers, HasPart, AllIn, NormedParts, Split, PartsOf;
      }
      hide *;
      SpelledOnce(existing, a);
      SpelledOnce(wanted, b);
      SpellingDecides(r, existing, wanted, a, b);
    }
  }

  // ----- dates -----------------------------------------------------------

  /** A non-empty date text of a fact. */
  ghost predicate Dated(x: Fact, t: string) {
    t != "" && (x.formal == Some(t) || x.original == Some(t))
  }

  /** A birth or death has the date already if the date is unstated, or some text of the fact gives the same year for a
      bare year, the same day for a full date, or the same text for anything else. */
  ghost predicate SameUniqueDate(r: Rules, x: Fact, date: Option<string>) {
    match date
    case None => true
    case Some(d) =>
      || r.blank(d)
      || (r.bareYear(d) && exists t :: Dated(x, t) && r.yearOf(t) == r.yearOf(d))
      || (!r.bareYear(d) && d != "" && r.dayOf(d).Some? && exists t :: Dated(x, t) && r.dayOf(t) == r.dayOf(d))
      || (!r.bareYear(d) && (d == "" || r.dayOf(d).None?) && exists t :: Dated(x, t) && r.norm(t) == r.norm(d))
  }

  lemma TextMembers(x: Fact, t: string)
    ensures t in Texts(x) <==> Dated(x, t)
  {
  }

  lemma UniqueDateMeans(r: Rules, x: Fact, date: Option<string>)
    ensures UniqueDateAgrees(r, x, date) <==> SameUniqueDate(r, x, date)
  {
    forall t ensures t in Texts(x) <==> Dated(x, t) {
      TextMembers(x, t);
    }
    hide Texts, Dated;
    if date.Some? && !r.blank(date.value) {
      assert forall t :: t in Texts(x) ==> DayOf(r, Some(t)) == r.dayOf(t) by {
        forall t | t in Texts(x) ensures DayOf(r, Some(t)) == r.dayOf(t) {
          DatedIsText(x, t);
        }
      }
    }
  }

  lemma DatedIsText(x: Fact, t: string)
    requires Dated(x, t)
    ensures t != ""
  {
  }

  ghost function DayIn(r: Rules, t: Option<string>): Option<string> {
    match t
    case None => None
    case Some(s) => if s == "" then None else r.dayOf(s)
  }

  /** A residence has the date already if the year is unstated or the same and no two full dates differ. The formal date
      counts before the original one. */
  ghost predicate SameDate(r: Rules, x: Fact, date: Option<string>) {
    var year := match (x.formal, x.original) { case (Some(t), _) => r.yearOf(t) case (None, Some(t)) => r.yearOf(t)
                                               case _ => None };
    var day := match DayIn(r, x.formal) { case Some(d) => Some(d) case None => DayIn(r, x.original) };
    && (date.None? || r.yearOf(date.value).None? || year == r.yearOf(date.value))
    && (day.None? || DayIn(r, date).None? || day == DayIn(r, date))
  }

  lemma DateMeans(r: Rules, x: Fact, f: Finding)
    ensures FactMatches(r, x, f, true) <==> SameUniqueDate(r, x, f.date) && SamePlace(r, x.place, f.place)
    ensures FactMatches(r, x, f, false) <==> SameDate(r, x, f.date) && SamePlace(r, x.place, f.place)
  {
    UniqueDateMeans(r, x, f.date);
    PlaceMeans(r, x.place, f.place);
    hide UniqueDateAgrees, SameUniqueDate, PlaceAgrees, SamePlace;
  }

  // ----- what the person shows and what it lacks --------------------------

  /** Something is stated of when or where. */
  predicate Stated(f: Finding) {
    (f.date.Some? && f.date.value != "") || (f.place.Some? && f.place.value != "")
  }

  /** The type of the person's facts that a finding can be among. */
  function TypeText(k: Kind): string {
    match k
    case Birth => "http://gedcomx.org/Birth"
    case Death => "http://gedcomx.org/Death"
    case Residence => "http://gedcomx.org/Residence"
    case _ => ""
  }

  predicate IsFact(k: Kind) {
    k == Birth || k == Death || k == Residence
  }

  /** The conclusion of the finding is among the person's. */
  ghost predicate Shows(r: Rules, person: Person, f: Finding) {
    if f.kind == NameVariant then
      exists forms <- person.names :: exists form <- forms :: r.norm(form.GetOr("")) == r.norm(f.value)
    else
      && IsFact(f.kind) && Stated(f)
      && exists x <- person.facts ::
           && x.factType == Some(TypeText(f.kind)) && SamePlace(r, x.place, f.place)
           && if f.kind == Residence then SameDate(r, x, f.date) else SameUniqueDate(r, x, f.date)
  }

  /** The person lacks the conclusion: it has no such name or residence, or no birth or death at all. */
  ghost predicate Lacks(r: Rules, person: Person, f: Finding) {
    if f.kind == NameVariant then !Shows(r, person, f)
    else if f.kind == Residence then Stated(f) && !Shows(r, person, f)
    else IsFact(f.kind) && Stated(f) && forall x <- person.facts :: x.factType != Some(TypeText(f.kind))
  }

  /** The person has another birth or death. */
  ghost predicate Contradicts(r: Rules, person: Person, f: Finding) {
    (f.kind == Birth || f.kind == Death) && Stated(f) && !Shows(r, person, f) && !Lacks(r, person, f)
  }

  lemma TypesAre(k: Kind)
    ensures FactTypeOf(k) == if IsFact(k) then Some(TypeText(k)) else None
  {
    assert GX + "Birth" == "http://gedcomx.org/Birth" && GX + "Death" == "http://gedcomx.org/Death";
    assert GX + "Residence" == "http://gedcomx.org/Residence";
  }

  lemma MatchingMeans(r: Rules, person: Person, f: Finding)
    requires IsFact(f.kind)
    ensures HasMatchingFact(r, person, TypeText(f.kind), f) <==> exists x <- person.facts ::
      && x.factType == Some(TypeText(f.kind)) && SamePlace(r, x.place, f.place)
      && if f.kind == Residence then SameDate(r, x, f.date) else SameUniqueDate(r, x, f.date)
  {
    forall x | x in person.facts
      ensures FactMatches(r, x, f, true) <==> SameUniqueDate(r, x, f.date) && SamePlace(r, x.place, f.place)
      ensures FactMatches(r, x, f, false) <==> SameDate(r, x, f.date) && SamePlace(r, x.place, f.place)
    {
      DateMeans(r, x, f);
    }
    hide FactMatches, SameUniqueDate, SamePlace, SameDate, TypeText;
  }

  lemma StatusMeans(r: Rules, person: Person, f: Finding)
    ensures FactStatus(r, person, f) == Present <==> Shows(r, person, f)
    ensures FactStatus(r, person, f) == Absent <==> Lacks(r, person, f)
    ensures FactStatus(r, person, f) == Conflict <==> Contradicts(r, person, f)
  {
    TypesAre(f.kind);
    if IsFact(f.kind) {
      MatchingMeans(r, person, f);
    }
    assert f.kind == NameVariant ==> (Shows(r, person, f) <==> HasName(r, person, r.norm(f.value)));
    hide HasMatchingFact, SameUniqueDate, SamePlace, SameDate, TypeText, FactTypeOf, HasName;
  }

  // ----- which conclusions count as the same -------------------------------

  /** The full date if there is one, else the date's text. */
  ghost function When(r: Rules, date: Option<string>): string {
    match DayIn(r, date) case Some(d) => d case None => r.norm(date.GetOr(""))
  }

  /** Equal but for spelling. */
  ghost predicate SameConclusion(r: Rules, f: Finding, g: Finding) {
    && f.kind == g.kind && r.norm(f.value) == r.norm(g.value) && When(r, f.date) == When(r, g.date)
    && r.norm(f.place.GetOr("")) == r.norm(g.place.GetOr(""))
  }

  ghost predicate BarFree(r: Rules, f: Finding) {
    '|' !in r.norm(f.value) && '|' !in When(r, f.date)
  }

  lemma KindNamesApart(k: Kind, l: Kind)
    ensures Without(KindName(k), '|') && (KindName(k) == KindName(l) ==> k == l)
  {
    KindRoundTrip(k);
    KindRoundTrip(l);
    hide KindOf;
  }

  lemma KeyIs(r: Rules, f: Finding)
    ensures ConclusionKey(r, f)
         == KindName(f.kind) + ['|'] + (r.norm(f.value) + ['|'] + (When(r, f.date) + ['|'] + r.norm(f.place.GetOr(""))))
  {
    var day := DayOf(r, f.date);
    assert When(r, f.date) == if day.Some? then day.value else Norm(r, f.date);
    var a, b, w, d := KindName(f.kind), r.norm(f.value), When(r, f.date), r.norm(f.place.GetOr(""));
    hide KindName, When;
    assert a + "|" + b + "|" + w + "|" + d == a + ['|'] + (b + ['|'] + (w + ['|'] + d));
  }

  /** Findings that are the same but for spelling have the same key; and unless a bar occurs in what is compared, which
      normalised texts and full dates never have, only they have. */
  lemma KeysMean(r: Rules, f: Finding, g: Finding)
    ensures SameConclusion(r, f, g) ==> ConclusionKey(r, f) == ConclusionKey(r, g)
    ensures ConclusionKey(r, f) == ConclusionKey(r, g) ==> f.kind == g.kind
    ensures BarFree(r, f) && BarFree(r, g) && ConclusionKey(r, f) == ConclusionKey(r, g) ==> SameConclusion(r, f, g)
  {
    KeyIs(r, f);
    KeyIs(r, g);
    KindNamesApart(f.kind, g.kind);
    KindNamesApart(g.kind, f.kind);
    var x := When(r, f.date) + ['|'] + r.norm(f.place.GetOr(""));
    var y := When(r, g.date) + ['|'] + r.norm(g.place.GetOr(""));
    if ConclusionKey(r, f) == ConclusionKey(r, g) {
      hide ConclusionKey, KindName, When;
      CutOnce(KindName(f.kind), r.norm(f.value) + ['|'] + x, KindName(g.kind), r.norm(g.value) + ['|'] + y, '|');
      if BarFree(r, f) && BarFree(r, g) {
        CutOnce(r.norm(f.value), x, r.norm(g.value), y, '|');
        CutOnce(When(r, f.date), r.norm(f.place.GetOr("")), When(r, g.date), r.norm(g.place.GetOr("")), '|');
      }
    }
  }

  // ----- what each finding contributes --------------------------------------

  /** A note of the person carries the marker of the finding. */
  ghost predicate Marked(c: Ctx, f: Finding) {
    exists n <- c.person.notes :: n.Some? && Contains(n.value, "[TRM:" + f.sourceId + "/" + f.factId + "]")
  }

  /** Of the missing conclusions that have the same key, or the same unique kind, the first one counts. */
  ghost predicate Leads(c: Ctx, fs: seq<Finding>, j: nat)
    requires j < |fs|
  {
    && Lacks(c.rules, c.person, fs[j])
    && forall i :: 0 <= i < j && Lacks(c.rules, c.person, fs[i]) ==>
         && ConclusionKey(c.rules, fs[i]) != ConclusionKey(c.rules, fs[j])
         && (fs[i].kind == fs[j].kind ==> fs[j].kind != Birth && fs[j].kind != Death)
  }

  ghost predicate KeyTaken(c: Ctx, fs: seq<Finding>, n: nat, key: string)
    requires n <= |fs|
  {
    exists i :: 0 <= i < n && Leads(c, fs, i) && ConclusionKey(c.rules, fs[i]) == key
  }

  /** What finding `j` adds to the notes. */
  ghost function NotesFor(c: Ctx, f: Finding): seq<Op> {
    if Shows(c.rules, c.person, f) || Marked(c, f) then [] else [NoteOp(c, f)]
  }

  /** What it adds to the conclusions. */
  ghost function ConclusionsFor(c: Ctx, fs: seq<Finding>, j: nat): seq<Op>
    requires j < |fs|
  {
    if c.opts.allowConclusions && Leads(c, fs, j) && ConclusionOp(c, fs[j]).Some? then [ConclusionOp(c, fs[j]).value]
    else []
  }

  /** What is recorded of it instead. */
  ghost function SkipsFor(c: Ctx, fs: seq<Finding>, j: nat): seq<Skip>
    requires j < |fs|
  {
    var f := fs[j];
    var id, t := FindingId(f), if f.kind == NameVariant then AddName else AddFact;
    if Shows(c.rules, c.person, f) then [Skip(id, AddNote, ConclusionPresent)]
    else
      (if Marked(c, f) then [Skip(id, AddNote, NotePresent)] else []) +
      (if !Lacks(c.rules, c.person, f) then []
       else if !c.opts.allowConclusions then [Skip(id, t, ConclusionsDisabled)]
       else if KeyTaken(c, fs, j, ConclusionKey(c.rules, f)) then [Skip(id, t, SameConclusionPlanned)]
       else if !Leads(c, fs, j) then [Skip(id, AddFact, UniqueConclusionPlanned)]
       else [])
  }

  lemma MarkedMeans(c: Ctx, f: Finding)
    ensures NotePresentFor(c, f) <==> Marked(c, f)
  {
    var marker := "[TRM:" + f.sourceId + "/" + f.factId + "]";
    assert Marker(f) == marker;
    assert |marker| > 0 && !Contains("", marker);
    hide Contains;
    forall n | n in c.person.notes ensures Contains(n.GetOr(""), marker) <==> n.Some? && Contains(n.value, marker) {
    }
  }

  /** The keys and unique kinds the loop has seen are those of the conclusions that lead. */
  ghost predicate SeenIs(c: Ctx, fs: seq<Finding>, s: FindingPass) {
    && (forall key :: key in s.seen <==> c.opts.allowConclusions && KeyTaken(c, fs, |fs|, key))
    && (forall k :: k in s.unique <==>
          c.opts.allowConclusions && (k == Birth || k == Death)
          && exists i :: 0 <= i < |fs| && fs[i].kind == k && Lacks(c.rules, c.person, fs[i]))
  }

  lemma LeadsInPrefix(c: Ctx, fs: seq<Finding>, n: nat, j: nat)
    requires j < n <= |fs|
    ensures Leads(c, fs[..n], j) <==> Leads(c, fs, j)
  {
    hide Lacks, ConclusionKey;
    assert forall i :: 0 <= i <= j ==> fs[..n][i] == fs[i];
  }

  lemma TakenInPrefix(c: Ctx, fs: seq<Finding>, n: nat, key: string)
    requires n <= |fs|
    ensures KeyTaken(c, fs[..n], n, key) <==> KeyTaken(c, fs, n, key)
  {
    forall i | 0 <= i < n ensures Leads(c, fs[..n], i) <==> Leads(c, fs, i) {
      LeadsInPrefix(c, fs, n, i);
    }
    hide Leads, ConclusionKey;
    if KeyTaken(c, fs, n, key) {
      var i :| 0 <= i < n && Leads(c, fs, i) && ConclusionKey(c.rules, fs[i]) == key;
      assert Leads(c, fs[..n], i) && ConclusionKey(c.rules, fs[..n][i]) == key;
    }
  }

  /** A missing conclusion of an earlier key has a leader with that key, unless it is of a unique kind. */
  lemma {:induction false} LeaderExists(c: Ctx, fs: seq<Finding>, i: nat, n: nat)
    requires i < n <= |fs| && Lacks(c.rules, c.person, fs[i]) && fs[i].kind != Birth && fs[i].kind != Death
    ensures KeyTaken(c, fs, n, ConclusionKey(c.rules, fs[i]))
  {
    hide Lacks, ConclusionKey;
    if !Leads(c, fs, i) {
      var h :| 0 <= h < i && Lacks(c.rules, c.person, fs[h])
               && ConclusionKey(c.rules, fs[h]) == ConclusionKey(c.rules, fs[i]);
      KeysMean(c.rules, fs[h], fs[i]);
      LeaderExists(c, fs, h, n);
    }
  }

  /** A missing conclusion that does not lead has an earlier missing one of its key or its unique kind, so of its
      kind. */
  lemma EarlierOne(c: Ctx, fs: seq<Finding>, n: nat) returns (i: nat)
    requires n < |fs| && Lacks(c.rules, c.person, fs[n]) && !Leads(c, fs, n)
    ensures i < n && Lacks(c.rules, c.person, fs[i]) && fs[i].kind == fs[n].kind
    ensures fs[n].kind == Birth || fs[n].kind == Death || ConclusionKey(c.rules, fs[i]) == ConclusionKey(c.rules, fs[n])
  {
    hide Lacks, ConclusionKey;
    i :| 0 <= i < n && Lacks(c.rules, c.person, fs[i])
         && (ConclusionKey(c.rules, fs[i]) == ConclusionKey(c.rules, fs[n])
             || (fs[i].kind == fs[n].kind && (fs[n].kind == Birth || fs[n].kind == Death)));
    KeysMean(c.rules, fs[i], fs[n]);
  }

  lemma LeaderIsFree(c: Ctx, fs: seq<Finding>, n: nat)
    requires n < |fs| && Leads(c, fs, n)
    ensures !KeyTaken(c, fs, n, ConclusionKey(c.rules, fs[n]))
    ensures fs[n].kind == Birth || fs[n].kind == Death ==>
      forall i :: 0 <= i < n && Lacks(c.rules, c.person, fs[i]) ==> fs[i].kind != fs[n].kind
  {
    hide Lacks, ConclusionKey;
  }

  /** The loop concludes finding `n` exactly when it leads. */
  lemma ConcludesLeader(c: Ctx, fs: seq<Finding>, s: FindingPass)
    requires fs != [] && SeenIs(c, fs[..|fs| - 1], s)
    ensures var n := |fs| - 1;
      && (Concludes(c, s, fs[n]) <==> c.opts.allowConclusions && Leads(c, fs, n))
      && (c.opts.allowConclusions && Lacks(c.rules, c.person, fs[n]) ==>
            (ConclusionKey(c.rules, fs[n]) in s.seen <==> KeyTaken(c, fs, n, ConclusionKey(c.rules, fs[n]))))
  {
    var n := |fs| - 1;
    var f, key := fs[n], ConclusionKey(c.rules, fs[n]);
    StatusMeans(c.rules, c.person, f);
    TakenInPrefix(c, fs, n, key);
    assert forall i :: 0 <= i < n ==> fs[..n][i] == fs[i];
    assert Leads(c, fs, n) ==> Lacks(c.rules, c.person, f);
    hide Lacks, ConclusionKey, FactStatus, Shows, Leads, KeyTaken;
    if Lacks(c.rules, c.person, f) {
      if Leads(c, fs, n) {
        LeaderIsFree(c, fs, n);
      } else {
        var i := EarlierOne(c, fs, n);
        if f.kind != Birth && f.kind != Death {
          LeaderExists(c, fs, i, n);
        }
      }
    }
  }

  lemma StepAdds(c: Ctx, fs: seq<Finding>, s: FindingPass)
    requires fs != [] && SeenIs(c, fs[..|fs| - 1], s)
    ensures var n := |fs| - 1;
      var t := FindingStep(c, s, fs[n]);
      && t.notes == s.notes + NotesFor(c, fs[n]) && t.facts == s.facts + ConclusionsFor(c, fs, n)
      && t.skipped == s.skipped + SkipsFor(c, fs, n)
  {
    var n := |fs| - 1;
    StatusMeans(c.rules, c.person, fs[n]);
    MarkedMeans(c, fs[n]);
    ConcludesLeader(c, fs, s);
    StepEffect(c, s, fs[n]);
    StepSkips(c, s, fs[n]);
    LacksMeansConclusion(c, fs[n]);
    hide Shows, Lacks, Marked, Leads, KeyTaken, ConclusionKey, FactStatus, NotePresentFor, FindingStep, NoteOp,
         ConclusionOp, SeenIs, FindingId;
  }

  lemma LacksMeansConclusion(c: Ctx, f: Finding)
    ensures Lacks(c.rules, c.person, f) ==> ConclusionOp(c, f).Some? && !Shows(c.rules, c.person, f)
    ensures ConclusionType(f) == if f.kind == NameVariant then AddName else AddFact
  {
    StatusMeans(c.rules, c.person, f);
    hide Lacks, Shows;
  }

  /** What a step records, by the branches of the loop. */
  lemma StepSkips(c: Ctx, s: FindingPass, f: Finding)
    ensures var t, id, status := FindingStep(c, s, f), FindingId(f), FactStatus(c.rules, c.person, f);
      t.skipped == s.skipped +
        if status == Present then [Skip(id, AddNote, ConclusionPresent)]
        else
          (if NotePresentFor(c, f) then [Skip(id, AddNote, NotePresent)] else []) +
          (if status != Absent then []
           else if !c.opts.allowConclusions then [Skip(id, ConclusionType(f), ConclusionsDisabled)]
           else if ConclusionKey(c.rules, f) in s.seen then [Skip(id, ConclusionType(f), SameConclusionPlanned)]
           else if IsUnique(f.kind) && f.kind in s.unique then [Skip(id, AddFact, UniqueConclusionPlanned)]
           else [])
  {
    hide FindingId, FactStatus, NotePresentFor, ConclusionKey, NoteOp, ConclusionOp;
  }

  /** The step keeps track of what leads. */
  lemma StepSees(c: Ctx, fs: seq<Finding>, s: FindingPass)
    requires fs != [] && SeenIs(c, fs[..|fs| - 1], s)
    ensures SeenIs(c, fs, FindingStep(c, s, fs[|fs| - 1]))
  {
    var n := |fs| - 1;
    var f, t := fs[n], FindingStep(c, s, fs[n]);
    StatusMeans(c.rules, c.person, f);
    ConcludesLeader(c, fs, s);
    StepEffect(c, s, f);
    assert forall i :: 0 <= i < n ==> fs[..n][i] == fs[i];
    hide Lacks, Shows, Leads, ConclusionKey, FactStatus, FindingStep, NoteOp, ConclusionOp, Noted;
    forall key ensures key in t.seen <==> c.opts.allowConclusions && KeyTaken(c, fs, n + 1, key) {
      TakenInPrefix(c, fs, n, key);
    }
    forall k
      ensures k in t.unique <==> c.opts.allowConclusions && (k == Birth || k == Death)
                                 && exists i :: 0 <= i < n + 1 && fs[i].kind == k && Lacks(c.rules, c.person, fs[i])
    {
      UniqueSeen(c, fs, s, k);
    }
  }

  lemma UniqueSeen(c: Ctx, fs: seq<Finding>, s: FindingPass, k: Kind)
    requires fs != [] && SeenIs(c, fs[..|fs| - 1], s)
    ensures k in FindingStep(c, s, fs[|fs| - 1]).unique
      <==> c.opts.allowConclusions && (k == Birth || k == Death)
           && exists i :: 0 <= i < |fs| && fs[i].kind == k && Lacks(c.rules, c.person, fs[i])
  {
    var n := |fs| - 1;
    var f := fs[n];
    StatusMeans(c.rules, c.person, f);
    ConcludesLeader(c, fs, s);
    StepEffect(c, s, f);
    assert forall i :: 0 <= i < n ==> fs[..n][i] == fs[i];
    assert Leads(c, fs, n) ==> Lacks(c.rules, c.person, f);
    hide Lacks, Shows, ConclusionKey, FactStatus, FindingStep, NoteOp, ConclusionOp, Noted, KeyTaken, Leads, Concludes;
    if Lacks(c.rules, c.person, f) && !Leads(c, fs, n) {
      var i := EarlierOne(c, fs, n);
    }
  }

  ghost function Notes(c: Ctx, fs: seq<Finding>): seq<Op> {
    if fs == [] then [] else Notes(c, fs[..|fs| - 1]) + NotesFor(c, fs[|fs| - 1])
  }

  ghost function Conclusions(c: Ctx, fs: seq<Finding>): seq<Op> {
    if fs == [] then [] else Conclusions(c, fs[..|fs| - 1]) + ConclusionsFor(c, fs, |fs| - 1)
  }

  ghost function Skips(c: Ctx, fs: seq<Finding>): seq<Skip> {
    if fs == [] then [] else Skips(c, fs[..|fs| - 1]) + SkipsFor(c, fs, |fs| - 1)
  }

  /** The loop over the findings plans for each what the person shows and lacks, and what leads, say it should. */
  lemma {:induction false} FindingsPlanned(c: Ctx, fs: seq<Finding>)
    ensures var p := PlanFindings(c, fs);
      && p.notes == Notes(c, fs) && p.facts == Conclusions(c, fs) && p.skipped == Skips(c, fs) && SeenIs(c, fs, p)
  {
    if fs == [] {
      hide Leads;
    } else {
      FindingsPlanned(c, fs[..|fs| - 1]);
      StepAdds(c, fs, PlanFindings(c, fs[..|fs| - 1]));
      StepSees(c, fs, PlanFindings(c, fs[..|fs| - 1]));
      hide FindingStep, SeenIs, NotesFor, ConclusionsFor, SkipsFor;
    }
  }

  // ----- what a plan says of each finding ------------------------------------

  lemma SkipsInPrefix(c: Ctx, fs: seq<Finding>, n: nat, j: nat)
    requires j < n <= |fs|
    ensures SkipsFor(c, fs[..n], j) == SkipsFor(c, fs, j) && ConclusionsFor(c, fs[..n], j) == ConclusionsFor(c, fs, j)
  {
    LeadsInPrefix(c, fs, n, j);
    TakenInPrefix(c, fs, j, ConclusionKey(c.rules, fs[j]));
    TakenInPrefix(c, fs[..n], j, ConclusionKey(c.rules, fs[j]));
    assert fs[..n][..j] == fs[..j];
    hide Leads, KeyTaken, Shows, Lacks, Marked, ConclusionKey, FindingId, ConclusionOp;
  }

  /** The lists hold what each finding adds, and nothing else. */
  lemma {:induction false} Members(c: Ctx, fs: seq<Finding>)
    ensures forall op :: op in Notes(c, fs) <==> exists j :: 0 <= j < |fs| && op in NotesFor(c, fs[j])
    ensures forall op :: op in Conclusions(c, fs) <==> exists j :: 0 <= j < |fs| && op in ConclusionsFor(c, fs, j)
    ensures forall s :: s in Skips(c, fs) <==> exists j :: 0 <= j < |fs| && s in SkipsFor(c, fs, j)
  {
    hide NotesFor, ConclusionsFor, SkipsFor;
    if fs != [] {
      var n := |fs| - 1;
      Members(c, fs[..n]);
      forall j | 0 <= j < n
        ensures fs[..n][j] == fs[j] && SkipsFor(c, fs[..n], j) == SkipsFor(c, fs, j)
        ensures ConclusionsFor(c, fs[..n], j) == ConclusionsFor(c, fs, j)
      {
        SkipsInPrefix(c, fs, n, j);
      }
    }
  }

  /** What is added for a finding carries its id. */
  lemma OwnId(c: Ctx, fs: seq<Finding>, j: nat)
    requires j < |fs|
    ensures var id := FindingId(fs[j]);
      && (forall op <- NotesFor(c, fs[j]) :: op.opType == AddNote && op.findingIds == [id])
      && (forall op <- ConclusionsFor(c, fs, j) ::
            op.opType == (if fs[j].kind == NameVariant then AddName else AddFact) && op.findingIds == [id])
      && (forall s <- SkipsFor(c, fs, j) :: s.findingId == id)
  {
    hide Leads, KeyTaken, Shows, Lacks, Marked, ConclusionKey, FindingId;
  }

  /** The outcome of finding `j`: skipped as present exactly when the person shows its conclusion; else a note, unless
      there is one; and a conclusion, unless it is not lacking, not wanted, or another one leads. */
  ghost predicate Decided(c: Ctx, fs: seq<Finding>, j: nat, ops: seq<Op>, skips: seq<Skip>)
    requires j < |fs|
  {
    var f, id := fs[j], FindingId(fs[j]);
    var shown, lacking, marked := Shows(c.rules, c.person, f), Lacks(c.rules, c.person, f), Marked(c, f);
    && (Skip(id, AddNote, ConclusionPresent) in skips <==> shown)
    && (Skip(id, AddNote, NotePresent) in skips <==> !shown && marked)
    && ((exists op <- ops :: op.opType == AddNote && op.findingIds == [id]) <==> !shown && !marked)
    && ((exists op <- ops :: (op.opType == AddFact || op.opType == AddName) && op.findingIds == [id])
        <==> c.opts.allowConclusions && Leads(c, fs, j))
    && ((exists s <- skips :: s.findingId == id && (s.opType == AddFact || s.opType == AddName))
        <==> lacking && !(c.opts.allowConclusions && Leads(c, fs, j)))
  }

  lemma OwnSkips(c: Ctx, fs: seq<Finding>, j: nat)
    requires j < |fs|
    ensures var f, id, mine := fs[j], FindingId(fs[j]), SkipsFor(c, fs, j);
      && (Skip(id, AddNote, ConclusionPresent) in mine <==> Shows(c.rules, c.person, f))
      && (Skip(id, AddNote, NotePresent) in mine <==> !Shows(c.rules, c.person, f) && Marked(c, f))
      && ((exists s <- mine :: s.opType == AddFact || s.opType == AddName)
          <==> Lacks(c.rules, c.person, f) && !(c.opts.allowConclusions && Leads(c, fs, j)))
  {
    LacksMeansConclusion(c, fs[j]);
    TakenNotLeading(c, fs, j);
    hide Leads, KeyTaken, Shows, Lacks, Marked, ConclusionKey, FindingId, ConclusionOp;
    var mine, f := SkipsFor(c, fs, j), fs[j];
    assert Lacks(c.rules, c.person, f) && !(c.opts.allowConclusions && Leads(c, fs, j)) ==>
      mine[|mine| - 1].opType == AddFact || mine[|mine| - 1].opType == AddName;
  }

  lemma TakenNotLeading(c: Ctx, fs: seq<Finding>, j: nat)
    requires j < |fs|
    ensures KeyTaken(c, fs, j, ConclusionKey(c.rules, fs[j])) ==> !Leads(c, fs, j)
  {
    hide Lacks, ConclusionKey;
  }

  lemma {:induction false} SourceSkips(c: Ctx, gs: seq<Group>)
    requires Inhabited(gs)
    ensures forall s <- PlanSources(c, gs).skipped :: s.opType == CreateSource || s.opType == AttachSource
  {
    hide NeedsCreate, NeedsAttach, CreateOp, AttachOp, FindingId;
    if gs != [] {
      SourceSkips(c, gs[..|gs| - 1]);
    }
  }

  /** Another finding's outcomes are under another id. */
  lemma OthersApart(fs: seq<Finding>, i: nat, j: nat)
    requires DistinctIds(fs) && i < |fs| && j < |fs| && FindingId(fs[i]) == FindingId(fs[j])
    ensures i == j
  {
    IdsAt(fs, i);
    IdsAt(fs, j);
    hide FindingId;
  }

  /** The outcomes of a finding in the lists are those it adds itself. */
  lemma OnlyOwn(c: Ctx, fs: seq<Finding>, j: nat)
    requires DistinctIds(fs) && j < |fs|
    ensures var id := FindingId(fs[j]);
      && (forall op :: op in Notes(c, fs) && op.findingIds == [id] <==> op in NotesFor(c, fs[j]))
      && (forall op :: op in Conclusions(c, fs) && op.findingIds == [id] <==> op in ConclusionsFor(c, fs, j))
      && (forall s :: s in Skips(c, fs) && s.findingId == id <==> s in SkipsFor(c, fs, j))
  {
    Members(c, fs);
    forall i | 0 <= i < |fs|
      ensures forall op <- NotesFor(c, fs[i]) :: op.findingIds == [FindingId(fs[i])]
      ensures forall op <- ConclusionsFor(c, fs, i) :: op.findingIds == [FindingId(fs[i])]
      ensures forall s <- SkipsFor(c, fs, i) :: s.findingId == FindingId(fs[i])
      ensures FindingId(fs[i]) == FindingId(fs[j]) ==> i == j
    {
      OwnId(c, fs, i);
      if FindingId(fs[i]) == FindingId(fs[j]) {
        OthersApart(fs, i, j);
      }
    }
    hide NotesFor, ConclusionsFor, SkipsFor, FindingId, DistinctIds, Notes, Conclusions, Skips;
  }

  lemma OwnOps(c: Ctx, fs: seq<Finding>, j: nat)
    requires j < |fs|
    ensures NotesFor(c, fs[j]) != [] <==> !Shows(c.rules, c.person, fs[j]) && !Marked(c, fs[j])
    ensures ConclusionsFor(c, fs, j) != [] <==> c.opts.allowConclusions && Leads(c, fs, j)
  {
    LacksMeansConclusion(c, fs[j]);
    hide Shows, Marked, NoteOp, ConclusionOp;
  }

  lemma {:induction false} AllTyped(c: Ctx, fs: seq<Finding>)
    ensures forall op <- Notes(c, fs) :: op.opType == AddNote
    ensures forall op <- Conclusions(c, fs) :: op.opType == AddFact || op.opType == AddName
  {
    Members(c, fs);
    forall i | 0 <= i < |fs|
      ensures forall op <- NotesFor(c, fs[i]) :: op.opType == AddNote
      ensures forall op <- ConclusionsFor(c, fs, i) :: op.opType == AddFact || op.opType == AddName
    {
      OwnId(c, fs, i);
    }
    hide NotesFor, ConclusionsFor, SkipsFor, Notes, Conclusions, Skips;
  }

  /** Whatever a plan says of the sources is under other types. */
  ghost predicate OfSources(sources: seq<Op>, skips: seq<Skip>) {
    && (forall op <- sources :: op.opType == CreateSource || op.opType == AttachSource)
    && forall s <- skips :: s.opType == CreateSource || s.opType == AttachSource
  }

  lemma NoteDecision(c: Ctx, fs: seq<Finding>, j: nat, sources: seq<Op>)
    requires DistinctIds(fs) && j < |fs| && OfSources(sources, [])
    ensures (exists op <- sources + Notes(c, fs) + Conclusions(c, fs) ::
               op.opType == AddNote && op.findingIds == [FindingId(fs[j])])
      <==> !Shows(c.rules, c.person, fs[j]) && !Marked(c, fs[j])
  {
    OnlyOwn(c, fs, j);
    OwnOps(c, fs, j);
    AllTyped(c, fs);
    hide *;
    var mine, ops := NotesFor(c, fs[j]), sources + Notes(c, fs) + Conclusions(c, fs);
    assert forall op <- Notes(c, fs) :: op in ops;
    assert OfSources(sources, []) ==> forall op <- sources :: op.opType != AddNote by {
      SourceTypes(sources, []);
    }
    if mine != [] {
      assert mine[0] in mine;
      assert mine[0] in ops;
    }
  }

  lemma SourceTypes(sources: seq<Op>, skips: seq<Skip>)
    requires OfSources(sources, skips)
    ensures forall op <- sources :: op.opType == CreateSource || op.opType == AttachSource
    ensures forall s <- skips :: s.opType == CreateSource || s.opType == AttachSource
  {
  }

  lemma ConclusionDecision(c: Ctx, fs: seq<Finding>, j: nat, sources: seq<Op>)
    requires DistinctIds(fs) && j < |fs| && OfSources(sources, [])
    ensures (exists op <- sources + Notes(c, fs) + Conclusions(c, fs) ::
               (op.opType == AddFact || op.opType == AddName) && op.findingIds == [FindingId(fs[j])])
      <==> c.opts.allowConclusions && Leads(c, fs, j)
  {
    OnlyOwn(c, fs, j);
    OwnOps(c, fs, j);
    AllTyped(c, fs);
    SourceTypes(sources, []);
    hide *;
    var mine, ops := ConclusionsFor(c, fs, j), sources + Notes(c, fs) + Conclusions(c, fs);
    assert forall op <- Conclusions(c, fs) :: op in ops;
    if mine != [] {
      assert mine[0] in mine;
      assert mine[0] in ops;
    }
  }

  lemma SkipDecision(c: Ctx, fs: seq<Finding>, j: nat, skips: seq<Skip>)
    requires DistinctIds(fs) && j < |fs| && OfSources([], skips)
    ensures var f, id, all := fs[j], FindingId(fs[j]), skips + Skips(c, fs);
      && (Skip(id, AddNote, ConclusionPresent) in all <==> Shows(c.rules, c.person, f))
      && (Skip(id, AddNote, NotePresent) in all <==> !Shows(c.rules, c.person, f) && Marked(c, f))
      && ((exists s <- all :: s.findingId == id && (s.opType == AddFact || s.opType == AddName))
          <==> Lacks(c.rules, c.person, f) && !(c.opts.allowConclusions && Leads(c, fs, j)))
  {
    OnlyOwn(c, fs, j);
    OwnSkips(c, fs, j);
    SourceTypes([], skips);
    hide *;
    var mine, all := SkipsFor(c, fs, j), skips + Skips(c, fs);
    assert forall s <- Skips(c, fs) :: s in all;
  }

  lemma FindingDecided(c: Ctx, fs: seq<Finding>, j: nat, sources: seq<Op>, skips: seq<Skip>)
    requires DistinctIds(fs) && j < |fs| && OfSources(sources, skips)
    ensures Decided(c, fs, j, sources + Notes(c, fs) + Conclusions(c, fs), skips + Skips(c, fs))
  {
    NoteDecision(c, fs, j, sources);
    ConclusionDecision(c, fs, j, sources);
    SkipDecision(c, fs, j, skips);
    hide Shows, Lacks, Marked, Leads, FindingId, Notes, Conclusions, Skips, DistinctIds;
  }
}
