/** Findings as they arrive (parsed JSON), their validation, and how one compares with the person's conclusions. */
module WriteFindings {
  import opened Strings
  import opened Gedcomx

  /** The text helpers whose regular expressions and calendar parsing are left abstract: every result holds for
      any choice of them. A four-digit year is a number; `blank` says the trimmed text is empty; `bareYear` that
      it is nothing but a year. */
  datatype Rules = Rules(norm: string -> string, yearOf: string -> Option<nat>, dayOf: string -> Option<string>,
                         blank: string -> bool, bareYear: string -> bool)

  /** What the helpers do with the empty text. */
  ghost predicate EmptyTextRules(r: Rules) {
    r.norm("") == "" && r.yearOf("") == None && r.blank("")
  }

  function Norm(r: Rules, t: Option<string>): string {
    r.norm(t.GetOr(""))
  }

  function YearOf(r: Rules, t: Option<string>): Option<nat> {
    if t.None? then None else r.yearOf(t.value)
  }

  function DayOf(r: Rules, t: Option<string>): Option<string> {
    if !Truthy(t) then None else r.dayOf(t.value)
  }

  predicate Blank(r: Rules, t: Option<string>) {
    t.None? || r.blank(t.value)
  }

  // ----- validation ------------------------------------------------------

  datatype Kind = NameVariant | Birth | Death | Marriage | Residence | Relationship

  function KindName(k: Kind): string {
    match k
    case NameVariant => "name_variant"
    case Birth => "birth"
    case Death => "death"
    case Marriage => "marriage"
    case Residence => "residence"
    case Relationship => "relationship"
  }

  function KindOf(name: string): Option<Kind> {
    if name == "name_variant" then Some(NameVariant)
    else if name == "birth" then Some(Birth)
    else if name == "death" then Some(Death)
    else if name == "marriage" then Some(Marriage)
    else if name == "residence" then Some(Residence)
    else if name == "relationship" then Some(Relationship)
    else None
  }

  /** A property of a parsed JSON object; `shown` is what `String(...)` prints for it. */
  datatype Field = Undefined | Null | Str(text: string) | Num(value: real, finite: bool, shown: string)
                 | Other(shown: string)

  datatype RawFinding = NotObject
                      | Raw(kind: Field, value: Field, date: Field, place: Field, sourceUrl: Field,
                            sourceTitle: Field, sourceId: Field, factId: Field, confidence: Field, note: Field)

  datatype Finding = Finding(kind: Kind, value: string, date: Option<string>, place: Option<string>,
                             sourceUrl: Option<string>, sourceTitle: string, sourceId: string, factId: string,
                             confidence: real, note: string)

  datatype Reason = NotAnObject | MissingIds | MissingText | UnknownKind | NotStrings | BadConfidence
                  | LowConfidence | DuplicateId | PossiblyLiving | PersonMissing

  function FindingId(f: Finding): string {
    f.sourceId + ['/'] + f.factId
  }

  function Shown(v: Field): string {
    match v
    case Undefined => "?"
    case Null => "?"
    case Str(s) => s
    case Num(_, _, s) => s
    case Other(s) => s
  }

  function SafeFindingId(f: RawFinding): string {
    if f.NotObject? then "?/?" else Shown(f.sourceId) + ['/'] + Shown(f.factId)
  }

  predicate NonEmpty(r: Rules, v: Field) {
    v.Str? && !r.blank(v.text)
  }

  predicate OptionalString(v: Field) {
    v.Undefined? || v.Str?
  }

  function FindingProblem(r: Rules, f: RawFinding, minConfidence: real): Option<Reason> {
    if f.NotObject? then Some(NotAnObject)
    else if !NonEmpty(r, f.sourceId) || !NonEmpty(r, f.factId) then Some(MissingIds)
    else if !NonEmpty(r, f.sourceTitle) || !NonEmpty(r, f.value) || !NonEmpty(r, f.note) then Some(MissingText)
    else if !f.kind.Str? || KindOf(f.kind.text).None? then Some(UnknownKind)
    else if !OptionalString(f.date) || !OptionalString(f.place) || !OptionalString(f.sourceUrl) then
      Some(NotStrings)
    else if !f.confidence.Num? || !f.confidence.finite || f.confidence.value < 0.0 || f.confidence.value > 1.0 then
      Some(BadConfidence)
    else if f.confidence.value < minConfidence then Some(LowConfidence)
    else None
  }

  function TextOf(v: Field): Option<string> {
    if v.Str? then Some(v.text) else None
  }

  function ToFinding(r: Rules, f: RawFinding, minConfidence: real): (found: Finding)
    requires FindingProblem(r, f, minConfidence) == None
    ensures FindingId(found) == SafeFindingId(f)
  {
    Finding(KindOf(f.kind.text).value, f.value.text, TextOf(f.date), TextOf(f.place), TextOf(f.sourceUrl),
            f.sourceTitle.text, f.sourceId.text, f.factId.text, f.confidence.value, f.note.text)
  }

  // ----- comparison with the person's conclusions ------------------------

  const GX := "http://gedcomx.org/"

  function FactTypeOf(k: Kind): Option<string> {
    match k
    case Birth => Some(GX + "Birth")
    case Death => Some(GX + "Death")
    case Residence => Some(GX + "Residence")
    case _ => None
  }

  predicate IsUnique(k: Kind) {
    k == Birth || k == Death
  }

  datatype Status = Present | Absent | Conflict | NoteOnly

  function Texts(existing: Fact): seq<string> {
    (if Truthy(existing.formal) then [existing.formal.value] else []) +
    (if Truthy(existing.original) then [existing.original.value] else [])
  }

  predicate UniqueDateAgrees(r: Rules, existing: Fact, wanted: Option<string>) {
    if Blank(r, wanted) then true
    else if r.bareYear(wanted.value) then
      exists t <- Texts(existing) :: r.yearOf(t) == r.yearOf(wanted.value)
    else if DayOf(r, wanted).Some? then
      exists t <- Texts(existing) :: DayOf(r, Some(t)) == DayOf(r, wanted)
    else
      exists t <- Texts(existing) :: r.norm(t) == Norm(r, wanted)
  }

  function NormedParts(r: Rules, parts: seq<string>): seq<string> {
    if parts == [] then []
    else (if r.norm(parts[0]) == "" then [] else [r.norm(parts[0])]) + NormedParts(r, parts[1..])
  }

  /** The non-empty comma-separated parts of a place. */
  function Parts(r: Rules, place: Option<string>): seq<string> {
    NormedParts(r, Split(place.GetOr(""), ','))
  }

  predicate AllIn(xs: seq<string>, ys: seq<string>) {
    forall x <- xs :: x in ys
  }

  predicate PlaceAgrees(r: Rules, existing: Option<string>, wanted: Option<string>) {
    Blank(r, wanted) ||
    (Parts(r, existing) != [] && Parts(r, wanted) != [] &&
     (AllIn(Parts(r, wanted), Parts(r, existing)) || AllIn(Parts(r, existing), Parts(r, wanted))))
  }

  predicate FactMatches(r: Rules, existing: Fact, f: Finding, unique: bool) {
    var existingYear := YearOf(r, if existing.formal.Some? then existing.formal else existing.original);
    var wantedYear := YearOf(r, f.date);
    var existingDay := if DayOf(r, existing.formal).Some? then DayOf(r, existing.formal)
                       else DayOf(r, existing.original);
    var wantedDay := DayOf(r, f.date);
    var dayClash := existingDay.Some? && wantedDay.Some? && existingDay != wantedDay;
    var dateOk := if unique then UniqueDateAgrees(r, existing, f.date)
                  else (wantedYear.None? || existingYear == wantedYear) && !dayClash;
    dateOk && PlaceAgrees(r, existing.place, f.place)
  }

  predicate HasName(r: Rules, person: Person, wanted: string) {
    exists forms <- person.names :: exists form <- forms :: Norm(r, form) == wanted
  }

  predicate HasFact(person: Person, factType: string) {
    exists x <- person.facts :: x.factType == Some(factType)
  }

  predicate HasMatchingFact(r: Rules, person: Person, factType: string, f: Finding) {
    exists x <- person.facts :: x.factType == Some(factType) && FactMatches(r, x, f, IsUnique(f.kind))
  }

  function FactStatus(r: Rules, person: Person, f: Finding): Status {
    if f.kind == NameVariant then
      if HasName(r, person, r.norm(f.value)) then Present else Absent
    else if FactTypeOf(f.kind).None? then NoteOnly
    else if !Truthy(f.date) && !Truthy(f.place) then NoteOnly
    else if HasMatchingFact(r, person, FactTypeOf(f.kind).value, f) then Present
    else if HasFact(person, FactTypeOf(f.kind).value) && IsUnique(f.kind) then Conflict
    else Absent
  }

  const LIVING_WINDOW_YEARS := 110

  function FindBirth(facts: seq<Fact>): Option<Fact> {
    if facts == [] then None
    else if facts[0].factType == FactTypeOf(Birth) then Some(facts[0])
    else FindBirth(facts[1..])
  }

  predicate IsPossiblyLiving(r: Rules, person: Person, nowYear: int) {
    if person.living == Some(true) then true
    else if HasFact(person, GX + "Death") then false
    else
      var birth := FindBirth(person.facts);
      var year := if birth.None? then None
                  else YearOf(r, if birth.value.formal.Some? then birth.value.formal else birth.value.original);
      if year.None? then person.living != Some(false) else nowYear - year.value < LIVING_WINDOW_YEARS
  }
}
