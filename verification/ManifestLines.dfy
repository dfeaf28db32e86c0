/** Lines of the ingestion manifest and what pruning (pruneManifest.ts) and repairing (repairManifest.ts) do to them.
    A line stands for what it parses to; writing a parsed line back keeps it. */
module ManifestLines {
  import opened Strings

  /** A JavaScript Date: a time in milliseconds, or invalid. */
  datatype Date = At(ms: int) | Invalid

  /** The fields a record must have. */
  datatype FieldName = Id | Source | Profile | Lane | ExtractorsRun | Verification | OperatorFlags | Timestamps
                     | RoutingVersion | RetryCount

  /** Blank lines are skipped by every reader and are not listed. An array parses to an Entry without fields.
      `date` is what `getTimestampDate` finds. */
  datatype Line = Malformed(text: string) | JsonNull | Scalar(content: int)
                | Entry(fields: set<FieldName>, date: Option<Date>, rest: int)

  const REQUIRED := [Id, Source, Profile, Lane, ExtractorsRun, Verification, OperatorFlags, Timestamps, RoutingVersion,
                     RetryCount]

  predicate Complete(l: Line) {
    l.Entry? && forall f <- REQUIRED :: f in l.fields
  }

  /** `>=` on dates is false when either is invalid. */
  predicate NotBefore(d: Date, cutoff: Date) {
    d.At? && cutoff.At? && d.ms >= cutoff.ms
  }

  function DateOf(l: Line): Option<Date> {
    if l.Entry? then l.date else None
  }

  predicate Dropped(l: Line) {
    l.Malformed? || l.JsonNull?
  }

  predicate Kept(l: Line, cutoff: Date) {
    !Dropped(l) && (DateOf(l).None? || NotBefore(DateOf(l).value, cutoff))
  }

  predicate Expired(l: Line, cutoff: Date) {
    !Dropped(l) && !Kept(l, cutoff)
  }

  function Only(keep: bool, l: Line): seq<Line> {
    if keep then [l] else []
  }

  function Retained(ls: seq<Line>, cutoff: Date): seq<Line> {
    if ls == [] then []
    else Retained(ls[..|ls| - 1], cutoff) + Only(Kept(ls[|ls| - 1], cutoff), ls[|ls| - 1])
  }

  function Archived(ls: seq<Line>, cutoff: Date): seq<Line> {
    if ls == [] then []
    else Archived(ls[..|ls| - 1], cutoff) + Only(Expired(ls[|ls| - 1], cutoff), ls[|ls| - 1])
  }

  function Valid(ls: seq<Line>): seq<Line> {
    if ls == [] then [] else Valid(ls[..|ls| - 1]) + Only(Complete(ls[|ls| - 1]), ls[|ls| - 1])
  }

  function Corrupted(ls: seq<Line>): seq<Line> {
    if ls == [] then [] else Corrupted(ls[..|ls| - 1]) + Only(!Complete(ls[|ls| - 1]), ls[|ls| - 1])
  }

  /** The complete records among the lines. */
  function CompleteOf(ls: seq<Line>): multiset<Line> {
    if ls == [] then multiset{}
    else CompleteOf(ls[..|ls| - 1]) + multiset(Only(Complete(ls[|ls| - 1]), ls[|ls| - 1]))
  }

  /** The first valid date in file order (which the statistics report as the oldest retained, or youngest archived). */
  function FirstDate(ls: seq<Line>): Option<int> {
    if ls == [] then None
    else
      var before, d := FirstDate(ls[..|ls| - 1]), DateOf(ls[|ls| - 1]);
      if before.Some? then before else if d.Some? && d.value.At? then Some(d.value.ms) else None
  }

  lemma Prefix(ls: seq<Line>, i: nat)
    requires i < |ls|
    ensures ls[..i + 1][..i] == ls[..i] && ls[..i + 1][i] == ls[i]
  {
  }

  // ----- prune -----------------------------------------------------------

  datatype PruneStats = PruneStats(total: nat, retained: nat, archived: nat, oldestRetained: Option<int>,
                                   youngestArchived: Option<int>)

  function PruneStatsOf(ls: seq<Line>, cutoff: Date): PruneStats {
    var kept, gone := Retained(ls, cutoff), Archived(ls, cutoff);
    PruneStats(|ls|, |kept|, |gone|, FirstDate(kept), FirstDate(gone))
  }

  /** The date that a JSON value yields for pruning; reading `timestamps` of null throws. */
  datatype Parsed = Throws | Record(date: Option<Date>)

  function Parse(l: Line): Parsed {
    if l.Malformed? || l.JsonNull? then Throws else if l.Entry? then Record(l.date) else Record(None)
  }

  /** What the next line adds, by what it parses to. */
  lemma NextLine(ls: seq<Line>, i: nat, cutoff: Date)
    requires i < |ls|
    ensures var kept, gone, l, p := Retained(ls[..i], cutoff), Archived(ls[..i], cutoff), ls[i], Parse(ls[i]);
      if p.Throws? then Retained(ls[..i + 1], cutoff) == kept && Archived(ls[..i + 1], cutoff) == gone
      else if p.date.None? || NotBefore(p.date.value, cutoff)
        then Retained(ls[..i + 1], cutoff) == kept + [l] && Archived(ls[..i + 1], cutoff) == gone
      else Retained(ls[..i + 1], cutoff) == kept && Archived(ls[..i + 1], cutoff) == gone + [l]
    ensures !Parse(ls[i]).Throws? ==> Parse(ls[i]).date == DateOf(ls[i])
  {
    Prefix(ls, i);
  }

  lemma NextDate(ls: seq<Line>, l: Line)
    ensures FirstDate(ls + [l])
         == if FirstDate(ls).Some? then FirstDate(ls)
            else if DateOf(l).Some? && DateOf(l).value.At? then Some(DateOf(l).value.ms) else None
  {
    assert (ls + [l])[..|ls|] == ls;
  }

  /** What the loop does with a line, and the dates it then reports. */
  lemma NextSplit(ls: seq<Line>, i: nat, cutoff: Date)
    requires i < |ls|
    ensures var kept, gone, l, p := Retained(ls[..i], cutoff), Archived(ls[..i], cutoff), ls[i], Parse(ls[i]);
      var moreKept, moreGone := Retained(ls[..i + 1], cutoff), Archived(ls[..i + 1], cutoff);
      if p.Throws? then moreKept == kept && moreGone == gone
      else if p.date.None? || NotBefore(p.date.value, cutoff) then
        && moreKept == kept + [l] && moreGone == gone && (p.date.Some? ==> p.date.value.At?)
        && FirstDate(moreKept)
           == if FirstDate(kept).Some? then FirstDate(kept) else if p.date.Some? then Some(p.date.value.ms) else None
      else
        && moreKept == kept && moreGone == gone + [l]
        && FirstDate(moreGone)
           == if FirstDate(gone).Some? then FirstDate(gone)
              else if p.date.value.At? then Some(p.date.value.ms) else None
  {
    NextLine(ls, i, cutoff);
    NextDate(Retained(ls[..i], cutoff), ls[i]);
    NextDate(Archived(ls[..i], cutoff), ls[i]);
    hide Retained, Archived, FirstDate, DateOf, Parse;
  }

  /** The splitting loop of `pruneManifest`. An invalid date is counted and archived before `toISOString` throws. */
  method SplitForPrune(lines: seq<Line>, cutoff: Date) returns (kept: seq<Line>, gone: seq<Line>, stats: PruneStats)
    ensures kept == Retained(lines, cutoff) && gone == Archived(lines, cutoff)
    ensures stats == PruneStatsOf(lines, cutoff)
  {
    stats := PruneStats(|lines|, 0, 0, None, None);
    kept, gone := [], [];
    EmptyLines(cutoff);
    StatsAre(lines, cutoff);
    hide *;
    var i := 0;
    while i < |lines|
      invariant 0 <= i <= |lines|
      invariant kept == Retained(lines[..i], cutoff) && gone == Archived(lines[..i], cutoff)
      invariant stats.total == |lines| && stats.retained == |kept| && stats.archived == |gone|
      invariant stats.oldestRetained == FirstDate(kept) && stats.youngestArchived == FirstDate(gone)
    {
      var line := lines[i];
      NextSplit(lines, i, cutoff);
      i := i + 1;
      var record := Parse(line);
      if record.Throws? {
        continue;
      }
      if record.date.None? || NotBefore(record.date.value, cutoff) {
        kept := kept + [line];
        stats := stats.(retained := stats.retained + 1);
        if stats.oldestRetained.None? && record.date.Some? {
          stats := stats.(oldestRetained := Some(record.date.value.ms));
        }
      } else {
        gone := gone + [line];
        stats := stats.(archived := stats.archived + 1);
        if stats.youngestArchived.None? {
          if record.date.value.Invalid? {
            continue;
          }
          stats := stats.(youngestArchived := Some(record.date.value.ms));
        }
      }
    }
    assert lines[..i] == lines;
  }

  lemma StatsAre(lines: seq<Line>, cutoff: Date)
    ensures PruneStatsOf(lines, cutoff)
         == PruneStats(|lines|, |Retained(lines, cutoff)|, |Archived(lines, cutoff)|,
                       FirstDate(Retained(lines, cutoff)), FirstDate(Archived(lines, cutoff)))
  {
  }

  lemma EmptyLines(cutoff: Date)
    ensures Retained([], cutoff) == [] && Archived([], cutoff) == [] && FirstDate([]) == None
  {
  }

  /** `getPruneStats`, the dry run: it reports what a prune with the same cutoff would report. */
  method GetPruneStats(lines: seq<Line>, cutoff: Date) returns (stats: PruneStats)
    ensures stats == PruneStatsOf(lines, cutoff)
  {
    stats := PruneStats(|lines|, 0, 0, None, None);
    ghost var kept, gone: seq<Line> := [], [];
    EmptyLines(cutoff);
    StatsAre(lines, cutoff);
    hide *;
    var i := 0;
    while i < |lines|
      invariant 0 <= i <= |lines|
      invariant kept == Retained(lines[..i], cutoff) && gone == Archived(lines[..i], cutoff)
      invariant stats.total == |lines| && stats.retained == |kept| && stats.archived == |gone|
      invariant stats.oldestRetained == FirstDate(kept) && stats.youngestArchived == FirstDate(gone)
    {
      var line := lines[i];
      NextSplit(lines, i, cutoff);
      i := i + 1;
      var record := Parse(line);
      if record.Throws? {
        continue;
      }
      if record.date.None? || NotBefore(record.date.value, cutoff) {
        kept := kept + [line];
        stats := stats.(retained := stats.retained + 1);
        if stats.oldestRetained.None? && record.date.Some? {
          stats := stats.(oldestRetained := Some(record.date.value.ms));
        }
      } else {
        gone := gone + [line];
        stats := stats.(archived := stats.archived + 1);
        if stats.youngestArchived.None? && record.date.value.At? {
          stats := stats.(youngestArchived := Some(record.date.value.ms));
        }
      }
    }
    assert lines[..i] == lines;
  }

  // ----- what the date statistics mean -----------------------------------

  /** The valid dates, in file order. */
  function Dates(ls: seq<Line>): seq<int> {
    if ls == [] then []
    else
      var d := DateOf(ls[|ls| - 1]);
      Dates(ls[..|ls| - 1]) + (if d.Some? && d.value.At? then [d.value.ms] else [])
  }

  predicate Oldest(d: int, dates: seq<int>) {
    d in dates && forall e <- dates :: d <= e
  }

  predicate Youngest(d: int, dates: seq<int>) {
    d in dates && forall e <- dates :: e <= d
  }

  predicate Ascending(dates: seq<int>) {
    forall i, j :: 0 <= i < j < |dates| ==> dates[i] <= dates[j]
  }

  lemma {:induction false} FirstOfDates(ls: seq<Line>)
    ensures FirstDate(ls) == if Dates(ls) == [] then None else Some(Dates(ls)[0])
  {
    if ls != [] {
      FirstOfDates(ls[..|ls| - 1]);
    }
  }

  lemma FirstExtreme(dates: seq<int>)
    requires dates != []
    ensures Oldest(dates[0], dates) <==> forall i :: 0 < i < |dates| ==> dates[0] <= dates[i]
    ensures Youngest(dates[0], dates) <==> forall i :: 0 < i < |dates| ==> dates[i] <= dates[0]
  {
    assert forall i :: 0 < i < |dates| ==> dates[i] in dates;
  }

  /** The reported dates are the first ones: what is reported as oldest is the oldest exactly when no later retained
      date is before the first, and what is reported as youngest is the youngest exactly when no later archived date is
      after the first. */
  lemma StatisticsDates(ls: seq<Line>, cutoff: Date)
    ensures var stats, kept, gone := PruneStatsOf(ls, cutoff), Dates(Retained(ls, cutoff)), Dates(Archived(ls, cutoff));
      && (stats.oldestRetained.None? <==> kept == []) && (stats.youngestArchived.None? <==> gone == [])
      && (kept != [] ==>
            (Oldest(stats.oldestRetained.value, kept) <==> forall i :: 0 < i < |kept| ==> kept[0] <= kept[i]))
      && (gone != [] ==>
            (Youngest(stats.youngestArchived.value, gone) <==> forall i :: 0 < i < |gone| ==> gone[i] <= gone[0]))
  {
    FirstOfDates(Retained(ls, cutoff));
    FirstOfDates(Archived(ls, cutoff));
    var kept, gone := Dates(Retained(ls, cutoff)), Dates(Archived(ls, cutoff));
    if kept != [] {
      FirstExtreme(kept);
    }
    if gone != [] {
      FirstExtreme(gone);
    }
    hide Retained, Archived, FirstDate, Dates, Oldest, Youngest;
  }

  lemma {:induction false} FilteredDates(ls: seq<Line>, cutoff: Date)
    requires Ascending(Dates(ls))
    ensures Ascending(Dates(Retained(ls, cutoff))) && Ascending(Dates(Archived(ls, cutoff)))
    ensures forall d <- Dates(Retained(ls, cutoff)) :: d in Dates(ls)
    ensures forall d <- Dates(Archived(ls, cutoff)) :: d in Dates(ls)
  {
    if ls == [] {
      assert Dates([]) == [] && Retained([], cutoff) == [] && Archived([], cutoff) == [];
    } else {
      var rest, l := ls[..|ls| - 1], ls[|ls| - 1];
      AscendingPrefix(ls);
      OnlyThis(l);
      hide *;
      assert ls == rest + [l];
      FilteredDates(rest, cutoff);
      PruneLast(rest, l, cutoff);
      DatesOnly(rest, true, l);
      AppendDate(rest, Retained(rest, cutoff), Kept(l, cutoff), l);
      AppendDate(rest, Archived(rest, cutoff), Expired(l, cutoff), l);
    }
  }

  lemma OnlyThis(l: Line)
    ensures Only(true, l) == [l]
  {
  }

  lemma AppendDate(all: seq<Line>, part: seq<Line>, keep: bool, l: Line)
    requires Ascending(Dates(all + Only(true, l))) && Ascending(Dates(part))
    requires forall d <- Dates(part) :: d in Dates(all)
    ensures Ascending(Dates(part + Only(keep, l)))
    ensures forall d <- Dates(part + Only(keep, l)) :: d in Dates(all + Only(true, l))
  {
    OneDate(keep, l);
    hide *;
    DatesOnly(all, true, l);
    DatesOnly(part, keep, l);
    AppendAscending(Dates(all), Dates(Only(true, l)), Dates(part), Dates(Only(keep, l)));
  }

  lemma AscendingPrefix(ls: seq<Line>)
    requires ls != [] && Ascending(Dates(ls))
    ensures Ascending(Dates(ls[..|ls| - 1]))
  {
    assert Dates(ls)[..|Dates(ls[..|ls| - 1])|] == Dates(ls[..|ls| - 1]);
  }

  lemma OneDate(keep: bool, l: Line)
    ensures |Dates(Only(true, l))| <= 1
    ensures Dates(Only(keep, l)) == Dates(Only(true, l)) || Dates(Only(keep, l)) == []
  {
    assert [l][..0] == [];
  }

  lemma DatesOnly(ls: seq<Line>, keep: bool, l: Line)
    ensures Dates(ls + Only(keep, l)) == Dates(ls) + Dates(Only(keep, l))
  {
    if keep {
      assert (ls + [l])[..|ls|] == ls && [l][..0] == [];
    } else {
      assert ls + Only(keep, l) == ls;
    }
  }

  lemma AppendAscending(all: seq<int>, ds: seq<int>, part: seq<int>, add: seq<int>)
    requires Ascending(all + ds) && Ascending(part) && (forall d <- part :: d in all)
    requires |ds| <= 1 && (add == ds || add == [])
    ensures Ascending(part + add) && forall d <- part + add :: d in all + ds
  {
    forall i, j | 0 <= i < j < |part + add| ensures (part + add)[i] <= (part + add)[j] {
      if j < |part| {
        assert part[i] <= part[j];
      } else {
        assert part[i] in part;
        var k :| 0 <= k < |all| && all[k] == part[i];
        assert (all + ds)[k] <= (all + ds)[|all|];
      }
    }
  }

  lemma FirstAscending(dates: seq<int>)
    requires Ascending(dates)
    ensures dates != [] ==> Oldest(dates[0], dates)
    ensures dates != [] ==> (Youngest(dates[0], dates) <==> forall d <- dates :: d == dates[0])
  {
    if dates != [] {
      FirstExtreme(dates);
    }
  }

  /** In a manifest in chronological order the oldest retained date is right, and the youngest archived one is in fact
      the oldest: it is right exactly when all archived dates are equal. */
  lemma ChronologicalDates(ls: seq<Line>, cutoff: Date)
    requires Ascending(Dates(ls))
    ensures var stats, kept, gone := PruneStatsOf(ls, cutoff), Dates(Retained(ls, cutoff)), Dates(Archived(ls, cutoff));
      && (kept != [] ==> stats.oldestRetained.Some? && Oldest(stats.oldestRetained.value, kept))
      && (gone != [] ==> stats.youngestArchived.Some? && Oldest(stats.youngestArchived.value, gone))
      && (gone != [] ==> (Youngest(stats.youngestArchived.value, gone) <==> forall d <- gone :: d == gone[0]))
  {
    hide Retained, Archived, FirstDate, Dates, Oldest, Youngest, Ascending;
    FilteredDates(ls, cutoff);
    FirstOfDates(Retained(ls, cutoff));
    FirstOfDates(Archived(ls, cutoff));
    FirstAscending(Dates(Retained(ls, cutoff)));
    FirstAscending(Dates(Archived(ls, cutoff)));
  }

  /** Two lines with the later date first: the reported oldest retained date is the younger one. */
  lemma OldestMayBeWrong()
    ensures var ls := [Entry({}, Some(At(2)), 0), Entry({}, Some(At(1)), 0)];
      PruneStatsOf(ls, At(0)).oldestRetained == Some(2) && !Oldest(2, Dates(Retained(ls, At(0))))
  {
    var x, y := Entry({}, Some(At(2)), 0), Entry({}, Some(At(1)), 0);
    assert [x][..0] == [] && [x, y][..1] == [x] && [x] + [y] == [x, y];
    assert Retained([x], At(0)) == [x];
    assert Retained([x, y], At(0)) == [x, y];
    assert Dates([x]) == [2];
    assert Dates([x, y]) == [2] + [1];
    hide Retained, Dates, Kept, Expired;
    FirstOfDates([x, y]);
    assert ([2] + [1])[0] == 2 && ([2] + [1])[1] in [2] + [1];
  }

  function DroppedOf(ls: seq<Line>): multiset<Line> {
    if ls == [] then multiset{}
    else DroppedOf(ls[..|ls| - 1]) + multiset(Only(Dropped(ls[|ls| - 1]), ls[|ls| - 1]))
  }

  // ----- what stays and what goes, by the dates alone ---------------------

  /** A record stays unless it is dated: then it must be dated at the cutoff or later. */
  predicate Stays(l: Line, cutoff: Date) {
    match l
    case Entry(_, Some(At(ms)), _) => cutoff.At? && ms >= cutoff.ms
    case Entry(_, date, _) => date == None
    case Scalar(_) => true
    case _ => false
  }

  /** Only a dated record goes: one dated before the cutoff, or with a date that is none, or under a cutoff that is. */
  predicate Goes(l: Line, cutoff: Date) {
    match l
    case Entry(_, Some(At(ms)), _) => cutoff == Invalid || ms < cutoff.ms
    case Entry(_, date, _) => date == Some(Invalid)
    case _ => false
  }

  lemma ByDate(l: Line, cutoff: Date)
    ensures Kept(l, cutoff) <==> Stays(l, cutoff)
    ensures Expired(l, cutoff) <==> Goes(l, cutoff)
  {
  }

  lemma CountOnly(ls: seq<Line>, keep: bool, x: Line, l: Line)
    ensures multiset(ls + Only(keep, x))[l] == multiset(ls)[l] + if keep && x == l then 1 else 0
  {
  }

  /** As often as a line is in the manifest, so often it is kept or archived. */
  lemma {:induction false} PruneCounts(ls: seq<Line>, cutoff: Date, l: Line)
    ensures multiset(Retained(ls, cutoff))[l] == if Stays(l, cutoff) then multiset(ls)[l] else 0
    ensures multiset(Archived(ls, cutoff))[l] == if Goes(l, cutoff) then multiset(ls)[l] else 0
  {
    if ls != [] {
      var rest, last := ls[..|ls| - 1], ls[|ls| - 1];
      PruneCounts(rest, cutoff, l);
      assert ls == rest + Only(true, last);
      ByDate(last, cutoff);
      hide Stays, Goes, Kept, Expired, Only;
      CountOnly(rest, true, last, l);
      CountOnly(Retained(rest, cutoff), Kept(last, cutoff), last, l);
      CountOnly(Archived(rest, cutoff), Expired(last, cutoff), last, l);
    }
  }

  /** Pruning one line keeps it, moves it or drops it by its date. */
  lemma PruneByDate(l: Line, cutoff: Date)
    ensures Retained([l], cutoff) == if Stays(l, cutoff) then [l] else []
    ensures Archived([l], cutoff) == if Goes(l, cutoff) then [l] else []
  {
    ByDate(l, cutoff);
    assert [l][..0] == [];
    hide Stays, Goes, Kept, Expired;
  }

  lemma PruneLast(ls: seq<Line>, l: Line, cutoff: Date)
    ensures Retained(ls + [l], cutoff) == Retained(ls, cutoff) + Only(Kept(l, cutoff), l)
    ensures Archived(ls + [l], cutoff) == Archived(ls, cutoff) + Only(Expired(l, cutoff), l)
  {
    assert (ls + [l])[..|ls|] == ls;
    hide Kept, Expired, Only;
  }

  /** Pruning two parts of a manifest is pruning the whole, so lines stay and go in their order. */
  lemma {:induction false} PruneConcat(a: seq<Line>, b: seq<Line>, cutoff: Date)
    ensures Retained(a + b, cutoff) == Retained(a, cutoff) + Retained(b, cutoff)
    ensures Archived(a + b, cutoff) == Archived(a, cutoff) + Archived(b, cutoff)
  {
    EmptyLines(cutoff);
    hide *;
    if b == [] {
      assert a + b == a;
    } else {
      var rest, l := b[..|b| - 1], b[|b| - 1];
      PruneConcat(a, rest, cutoff);
      LastOfConcat(a, b);
      LastOfConcat([], b);
      PruneLast(a + rest, l, cutoff);
      PruneLast([] + rest, l, cutoff);
      assert [] + b == b && [] + rest == rest;
    }
  }

  lemma {:induction false} FilterOnly(ls: seq<Line>, keep: bool, l: Line, cutoff: Date)
    ensures Retained(ls + Only(keep, l), cutoff) == Retained(ls, cutoff) + Only(keep && Kept(l, cutoff), l)
    ensures Archived(ls + Only(keep, l), cutoff) == Archived(ls, cutoff) + Only(keep && Expired(l, cutoff), l)
    ensures Valid(ls + Only(keep, l)) == Valid(ls) + Only(keep && Complete(l), l)
    ensures CompleteOf(ls + Only(keep, l)) == CompleteOf(ls) + multiset(Only(keep && Complete(l), l))
  {
    if keep {
      assert (ls + [l])[..|ls|] == ls;
    } else {
      assert ls + Only(keep, l) == ls;
    }
    hide Complete, Kept, Expired;
  }

  lemma CompleteLast(ls: seq<Line>)
    requires ls != []
    ensures CompleteOf(ls) == CompleteOf(ls[..|ls| - 1]) + multiset(Only(Complete(ls[|ls| - 1]), ls[|ls| - 1]))
  {
    hide Complete;
  }

  /** A complete record is never dropped. */
  lemma OnlyKeptOrExpired(l: Line, cutoff: Date)
    ensures multiset(Only(Kept(l, cutoff) && Complete(l), l)) + multiset(Only(Expired(l, cutoff) && Complete(l), l))
         == multiset(Only(Complete(l), l))
    ensures multiset(Only(Kept(l, cutoff), l)) + multiset(Only(Expired(l, cutoff), l)) + multiset(Only(Dropped(l), l))
         == multiset([l])
    ensures multiset(Only(Complete(l), l)) + multiset(Only(!Complete(l), l)) == multiset([l])
  {
    assert Complete(l) ==> l.Entry?;
    hide Complete, NotBefore;
  }

  lemma {:induction false} CompleteSplits(ls: seq<Line>, cutoff: Date)
    ensures CompleteOf(Retained(ls, cutoff)) + CompleteOf(Archived(ls, cutoff)) == CompleteOf(ls)
  {
    hide Complete, Kept, Expired, Only;
    if ls != [] {
      var rest, l := ls[..|ls| - 1], ls[|ls| - 1];
      CompleteSplits(rest, cutoff);
      FilterOnly(Retained(rest, cutoff), Kept(l, cutoff), l, cutoff);
      FilterOnly(Archived(rest, cutoff), Expired(l, cutoff), l, cutoff);
      CompleteLast(ls);
      OnlyKeptOrExpired(l, cutoff);
      hide CompleteOf;
    }
  }

  lemma Regroup<T>(a: multiset<T>, b: multiset<T>, c: multiset<T>, x: multiset<T>, y: multiset<T>, z: multiset<T>)
    ensures (a + b + c) + (x + y + z) == (a + x) + (b + y) + (c + z)
  {
  }

  lemma Regroup2<T>(a: multiset<T>, b: multiset<T>, x: multiset<T>, y: multiset<T>)
    ensures (a + b) + (x + y) == (a + x) + (b + y)
  {
  }

  lemma Elements<T>(a: seq<T>, b: seq<T>)
    ensures multiset(a + b) == multiset(a) + multiset(b)
  {
  }

  /** Pruning loses no record that parses to something other than null: each goes to exactly one side, in order. */
  lemma {:induction false} PrunePartitions(ls: seq<Line>, cutoff: Date)
    ensures multiset(ls) == multiset(Retained(ls, cutoff)) + multiset(Archived(ls, cutoff)) + DroppedOf(ls)
  {
    hide Kept, Expired, Dropped, Only;
    if ls != [] {
      var rest, l := ls[..|ls| - 1], ls[|ls| - 1];
      PrunePartitions(rest, cutoff);
      assert ls == rest + [l];
      OnlyKeptOrExpired(l, cutoff);
      var kept, gone, dropped := Only(Kept(l, cutoff), l), Only(Expired(l, cutoff), l), Only(Dropped(l), l);
      Elements(rest, [l]);
      Elements(Retained(rest, cutoff), kept);
      Elements(Archived(rest, cutoff), gone);
      assert multiset(Retained(ls, cutoff)) == multiset(Retained(rest, cutoff)) + multiset(kept);
      assert multiset(Archived(ls, cutoff)) == multiset(Archived(rest, cutoff)) + multiset(gone);
      assert DroppedOf(ls) == DroppedOf(rest) + multiset(dropped);
      hide *;
      Regroup(multiset(Retained(rest, cutoff)), multiset(Archived(rest, cutoff)), DroppedOf(rest),
              multiset(kept), multiset(gone), multiset(dropped));
    }
  }

  lemma CompleteAppend(ls: seq<Line>, l: Line)
    ensures CompleteOf(ls + [l]) == CompleteOf(ls) + multiset(Only(Complete(l), l))
  {
    assert (ls + [l])[..|ls|] == ls;
    CompleteLast(ls + [l]);
    hide *;
  }

  lemma LastOfConcat<T>(a: seq<T>, b: seq<T>)
    requires b != []
    ensures a + b == (a + b[..|b| - 1]) + [b[|b| - 1]]
  {
  }

  lemma {:induction false} CompleteConcat(a: seq<Line>, b: seq<Line>)
    ensures CompleteOf(a + b) == CompleteOf(a) + CompleteOf(b)
  {
    if b == [] {
      assert CompleteOf(b) == multiset{};
      hide *;
      assert a + b == a;
    } else {
      hide *;
      var rest, l := b[..|b| - 1], b[|b| - 1];
      CompleteConcat(a, rest);
      LastOfConcat(a, b);
      CompleteLast(b);
      CompleteAppend(a + rest, l);
      Regroup(CompleteOf(a), CompleteOf(rest), multiset{}, multiset{}, multiset(Only(Complete(l), l)), multiset{});
    }
  }

  // ----- repair ----------------------------------------------------------

  datatype RepairStats = RepairStats(total: nat, valid: nat, corrupted: seq<Line>, missing: seq<(Line, seq<FieldName>)>)

  function Missing(fields: set<FieldName>, n: nat): seq<FieldName>
    requires n <= |REQUIRED|
  {
    if n == 0 then []
    else Missing(fields, n - 1) + (if REQUIRED[n - 1] in fields then [] else [REQUIRED[n - 1]])
  }

  lemma {:induction false} NothingMissing(fields: set<FieldName>, n: nat)
    requires n <= |REQUIRED|
    ensures Missing(fields, n) == [] <==> forall i :: 0 <= i < n ==> REQUIRED[i] in fields
  {
    if n > 0 {
      NothingMissing(fields, n - 1);
    }
  }

  /** None for a value on which `in` throws. */
  method ValidateRecord(l: Line) returns (missing: Option<seq<FieldName>>)
    ensures missing == if l.Entry? then Some(Missing(l.fields, |REQUIRED|)) else None
    ensures missing == Some([]) <==> Complete(l)
  {
    if !l.Entry? {
      return None;
    }
    var found := [];
    for i := 0 to |REQUIRED|
      invariant found == Missing(l.fields, i)
    {
      if REQUIRED[i] !in l.fields {
        found := found + [REQUIRED[i]];
      }
    }
    NothingMissing(l.fields, |REQUIRED|);
    return Some(found);
  }

  function MissingOf(ls: seq<Line>): seq<(Line, seq<FieldName>)> {
    if ls == [] then []
    else
      var l := ls[|ls| - 1];
      MissingOf(ls[..|ls| - 1]) + (if l.Entry? && !Complete(l) then [(l, Missing(l.fields, |REQUIRED|))] else [])
  }

  function RepairStatsOf(ls: seq<Line>): RepairStats {
    RepairStats(|ls|, |Valid(ls)|, Corrupted(ls), MissingOf(ls))
  }

  lemma EveryFieldRequired(f: FieldName)
    ensures f in REQUIRED
  {
    var at := match f case Id => 0 case Source => 1 case Profile => 2 case Lane => 3 case ExtractorsRun => 4
                      case Verification => 5 case OperatorFlags => 6 case Timestamps => 7 case RoutingVersion => 8
                      case RetryCount => 9;
    assert REQUIRED[at] == f;
  }

  lemma {:induction false} MissingMembers(fields: set<FieldName>, n: nat)
    requires n <= |REQUIRED|
    ensures forall f :: f in Missing(fields, n) <==> f in REQUIRED[..n] && f !in fields
  {
    if n > 0 {
      MissingMembers(fields, n - 1);
      assert REQUIRED[..n] == REQUIRED[..n - 1] + [REQUIRED[n - 1]];
    }
  }

  ghost predicate Whole(l: Line) {
    l.Entry? && forall f: FieldName :: f in l.fields
  }

  /** A record is complete when it has all ten fields, and those reported as missing are exactly the ones it lacks. */
  lemma CompleteMeans(l: Line)
    ensures Complete(l) <==> Whole(l)
    ensures l.Entry? ==> forall f: FieldName :: f in Missing(l.fields, |REQUIRED|) <==> f !in l.fields
  {
    forall f: FieldName ensures f in REQUIRED {
      EveryFieldRequired(f);
    }
    if l.Entry? {
      MissingMembers(l.fields, |REQUIRED|);
      assert REQUIRED[..|REQUIRED|] == REQUIRED;
    }
  }

  /** What repair does with one line. */
  lemma RepairOne(l: Line)
    ensures Valid([l]) == (if Whole(l) then [l] else []) && Corrupted([l]) == (if Whole(l) then [] else [l])
    ensures MissingOf([l]) == if l.Entry? && !Whole(l) then [(l, Missing(l.fields, |REQUIRED|))] else []
  {
    CompleteMeans(l);
    assert [l][..0] == [];
    hide Complete, Whole;
  }

  /** As often as a line is in the manifest, so often it is kept or reported. */
  lemma {:induction false} RepairCounts(ls: seq<Line>, l: Line)
    ensures multiset(Valid(ls))[l] == if Whole(l) then multiset(ls)[l] else 0
  {
    if ls != [] {
      var rest, last := ls[..|ls| - 1], ls[|ls| - 1];
      RepairCounts(rest, l);
      assert ls == rest + Only(true, last);
      CompleteMeans(last);
      hide Complete, Whole, Only;
      CountOnly(rest, true, last, l);
      CountOnly(Valid(rest), Complete(last), last, l);
    }
  }

  lemma {:induction false} NoneCorrupted(ls: seq<Line>)
    ensures Corrupted(ls) == [] <==> forall l <- ls :: Whole(l)
  {
    if ls != [] {
      var rest, last := ls[..|ls| - 1], ls[|ls| - 1];
      NoneCorrupted(rest);
      assert ls == rest + [last];
      CompleteMeans(last);
      hide Complete, Whole;
    }
  }

  lemma RepairPush(ls: seq<Line>, l: Line)
    ensures Valid(ls + [l]) == Valid(ls) + Only(Complete(l), l)
    ensures Corrupted(ls + [l]) == Corrupted(ls) + Only(!Complete(l), l)
    ensures MissingOf(ls + [l])
         == MissingOf(ls) + (if l.Entry? && !Complete(l) then [(l, Missing(l.fields, |REQUIRED|))] else [])
  {
    assert (ls + [l])[..|ls|] == ls;
    hide Complete, Missing, Only;
  }

  lemma NothingToRepair()
    ensures Valid([]) == [] && Corrupted([]) == [] && MissingOf([]) == []
  {
  }

  /** Repairing two parts of a manifest is repairing the whole, so lines are kept and reported in their order. */
  lemma {:induction false} RepairConcat(a: seq<Line>, b: seq<Line>)
    ensures Valid(a + b) == Valid(a) + Valid(b) && Corrupted(a + b) == Corrupted(a) + Corrupted(b)
    ensures MissingOf(a + b) == MissingOf(a) + MissingOf(b)
  {
    NothingToRepair();
    hide *;
    if b == [] {
      assert a + b == a;
    } else {
      var rest, l := b[..|b| - 1], b[|b| - 1];
      RepairConcat(a, rest);
      LastOfConcat(a, b);
      LastOfConcat([], b);
      RepairPush(a + rest, l);
      RepairPush(rest, l);
      assert [] + rest == rest && [] + b == b;
    }
  }

  /** The loop of `repairManifest`; `getRepairStats` is the same loop without the records. */
  method SplitForRepair(lines: seq<Line>) returns (valid: seq<Line>, stats: RepairStats)
    ensures valid == Valid(lines) && stats == RepairStatsOf(lines)
  {
    stats := RepairStats(|lines|, 0, [], []);
    valid := [];
    var i := 0;
    while i < |lines|
      invariant 0 <= i <= |lines|
      invariant valid == Valid(lines[..i]) && stats == RepairStatsOf(lines[..i]).(total := |lines|)
    {
      var line := lines[i];
      Prefix(lines, i);
      var missing := ValidateRecord(line);
      i := i + 1;
      if missing.None? {
        stats := stats.(corrupted := stats.corrupted + [line]);
      } else if missing.value == [] {
        valid := valid + [line];
        stats := stats.(valid := stats.valid + 1);
      } else {
        stats := stats.(corrupted := stats.corrupted + [line], missing := stats.missing + [(line, missing.value)]);
      }
      hide Complete, Missing;
    }
    assert lines[..i] == lines;
  }

  lemma RepairLast(ls: seq<Line>)
    requires ls != []
    ensures var rest, l := ls[..|ls| - 1], ls[|ls| - 1];
      Valid(ls) == Valid(rest) + Only(Complete(l), l) && Corrupted(ls) == Corrupted(rest) + Only(!Complete(l), l)
  {
    hide Complete;
  }

  /** Repairing keeps exactly the complete records. */
  lemma {:induction false} RepairKeepsComplete(ls: seq<Line>)
    ensures CompleteOf(ls) == multiset(Valid(ls))
  {
    hide Complete;
    if ls != [] {
      var rest, l := ls[..|ls| - 1], ls[|ls| - 1];
      RepairKeepsComplete(rest);
      RepairLast(ls);
      CompleteLast(ls);
      Elements(Valid(rest), Only(Complete(l), l));
      hide *;
    }
  }

  lemma PartitionStep(rest: seq<Line>, v: seq<Line>, c: seq<Line>, l: seq<Line>, x: seq<Line>, y: seq<Line>)
    requires multiset(rest) == multiset(v) + multiset(c) && multiset(x) + multiset(y) == multiset(l)
    ensures multiset(rest + l) == multiset(v + x) + multiset(c + y)
  {
    Elements(rest, l);
    Elements(v, x);
    Elements(c, y);
    Regroup2(multiset(v), multiset(c), multiset(x), multiset(y));
  }

  /** The lines that a repair does not keep are all reported. */
  lemma {:induction false} RepairPartitions(ls: seq<Line>)
    ensures multiset(ls) == multiset(Valid(ls)) + multiset(Corrupted(ls))
  {
    if ls == [] {
      assert Valid(ls) == [] && Corrupted(ls) == [];
    } else {
      hide *;
      var rest, l := ls[..|ls| - 1], ls[|ls| - 1];
      RepairPartitions(rest);
      RepairLast(ls);
      OnlyKeptOrExpired(l, Invalid);
      PartitionStep(rest, Valid(rest), Corrupted(rest), [l], Only(Complete(l), l), Only(!Complete(l), l));
      assert ls == rest + [l];
    }
  }

  // ----- laws ------------------------------------------------------------

  /** Pruning again with the same cutoff changes nothing and archives nothing. */
  lemma {:induction false} PruneSettles(ls: seq<Line>, cutoff: Date)
    ensures Retained(Retained(ls, cutoff), cutoff) == Retained(ls, cutoff)
    ensures Archived(Retained(ls, cutoff), cutoff) == []
  {
    if ls != [] {
      var rest, l := ls[..|ls| - 1], ls[|ls| - 1];
      PruneSettles(rest, cutoff);
      FilterOnly(Retained(rest, cutoff), Kept(l, cutoff), l, cutoff);
    }
  }

  /** Repairing again changes nothing and reports nothing; in particular every repaired record stays. */
  lemma {:induction false} RepairSettles(ls: seq<Line>)
    ensures Valid(Valid(ls)) == Valid(ls) && Corrupted(Valid(ls)) == []
  {
    if ls != [] {
      var rest, l := ls[..|ls| - 1], ls[|ls| - 1];
      RepairSettles(rest);
      FilterOnly(Valid(rest), Complete(l), l, Invalid);
      CorruptedOnly(Valid(rest), l);
      hide Complete;
    }
  }

  lemma {:induction false} CorruptedOnly(ls: seq<Line>, l: Line)
    ensures Corrupted(ls + Only(Complete(l), l)) == Corrupted(ls)
  {
    if Complete(l) {
      assert (ls + [l])[..|ls|] == ls;
    } else {
      assert ls + Only(Complete(l), l) == ls;
    }
    hide Complete;
  }

  /** Pruning and repairing commute on the manifest. */
  lemma {:induction false} PruneRepairCommute(ls: seq<Line>, cutoff: Date)
    ensures Retained(Valid(ls), cutoff) == Valid(Retained(ls, cutoff))
  {
    if ls != [] {
      var rest, l := ls[..|ls| - 1], ls[|ls| - 1];
      PruneRepairCommute(rest, cutoff);
      FilterOnly(Retained(rest, cutoff), Kept(l, cutoff), l, cutoff);
      FilterOnly(Valid(rest), Complete(l), l, cutoff);
      hide Complete, Kept;
    }
  }
}
