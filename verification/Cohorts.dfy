/** Cohort allocation and forward-only progression (multi-cohort-engine.ts). */
module Cohorts {
  import opened StableSort
  import Strings

  datatype Cohort = Cohort(id: string, size: real)

  /** An empty user counts as absent. */
  datatype Assignment = Assignment(id: string, proposal: string, user: string, cohortId: string, cohortSize: real,
                                   stage: nat)

  datatype Progression = Progression(assignmentId: string, fromCohort: string, toCohort: string, stage: nat)

  /** `cohorts` in registration order, the two logs in append order. */
  datatype Engine = Engine(cohorts: seq<Cohort>, assignments: seq<Assignment>, progressions: seq<Progression>)

  const SIZE := (c: Cohort) => c.size

  function Find(cohorts: seq<Cohort>, id: string): (i: nat)
    ensures i <= |cohorts| && (i < |cohorts| ==> cohorts[i].id == id) && forall j :: 0 <= j < i ==> cohorts[j].id != id
  {
    if cohorts == [] || cohorts[0].id == id then 0 else 1 + Find(cohorts[1..], id)
  }

  function FindAssignment(assignments: seq<Assignment>, id: string): (i: nat)
    ensures i <= |assignments| && (i < |assignments| ==> assignments[i].id == id)
    ensures forall j :: 0 <= j < i ==> assignments[j].id != id
  {
    if assignments == [] || assignments[0].id == id then 0 else 1 + FindAssignment(assignments[1..], id)
  }

  predicate Registered(cohorts: seq<Cohort>, id: string) {
    Find(cohorts, id) < |cohorts|
  }

  function Tolerance(size: real): real {
    if 0.015 * size < 0.0015 then 0.0015 else 0.015 * size
  }

  function Abs(x: real): real {
    if x < 0.0 then -x else x
  }

  predicate Matches(c: Cohort, targetSize: real) {
    Abs(c.size - targetSize) < Tolerance(c.size)
  }

  /** The target lies strictly within 0.0015 or within 1.5% of the size around it, whichever is wider. */
  predicate Near(size: real, target: real) {
    || size - 0.0015 < target < size + 0.0015
    || size - 0.015 * size < target < size + 0.015 * size
  }

  /** The first of the registered cohorts with a size near the target. */
  ghost predicate IsFirstNear(cohorts: seq<Cohort>, target: real, c: Cohort) {
    exists i :: 0 <= i < |cohorts| && cohorts[i] == c && Near(c.size, target)
                && forall j :: 0 <= j < i ==> !Near(cohorts[j].size, target)
  }

  /** As `Near`, ends included. */
  predicate Within(size: real, given: real) {
    || size - 0.0015 <= given <= size + 0.0015
    || size - 0.015 * size <= given <= size + 0.015 * size
  }

  lemma MatchesWhenNear(c: Cohort, target: real)
    ensures Matches(c, target) <==> Near(c.size, target)
    ensures Abs(c.size - target) <= Tolerance(c.size) <==> Within(c.size, target)
  {
  }

  /** The cohort after `id` in the order of sizes; None at the end. */
  function NextCohort(cohorts: seq<Cohort>, id: string): Strings.Option<Cohort> {
    var sorted := SortBy(cohorts, SIZE);
    var i := Find(sorted, id);
    if i + 1 < |sorted| then Strings.Some(sorted[i + 1]) else Strings.None
  }

  // ----- assignment ids --------------------------------------------------

  const TWO_32 := 0x1_0000_0000

  /** What the bit operators of JavaScript make of an integer. */
  function ToInt32(x: int): int {
    (x + TWO_32 / 2) % TWO_32 - TWO_32 / 2
  }

  /** The characters stand for UTF-16 code units. */
  function HashOf(s: string): int {
    if s == "" then 0
    else
      var hash := HashOf(s[..|s| - 1]);
      ToInt32(ToInt32(hash * 32) - hash + s[|s| - 1] as int)
  }

  const DIGITS := "0123456789abcdef"

  function Hex(n: nat): string {
    if n < 16 then [DIGITS[n]] else Hex(n / 16) + [DIGITS[n % 16]]
  }

  function SimpleHash(s: string): string {
    var hash := HashOf(s);
    "assign-" + s + "-" + Hex(if hash < 0 then -hash else hash)
  }

  function Requested(proposal: string, user: string): string {
    if user == "" then proposal else proposal + "-" + user
  }

  function AssignmentId(proposal: string, user: string): string {
    SimpleHash(Requested(proposal, user))
  }

  // ----- operations ------------------------------------------------------

  function FirstMatch(cohorts: seq<Cohort>, targetSize: real): (i: nat)
    ensures i <= |cohorts| && (i < |cohorts| ==> Matches(cohorts[i], targetSize))
    ensures forall j :: 0 <= j < i ==> !Matches(cohorts[j], targetSize)
  {
    if cohorts == [] || Matches(cohorts[0], targetSize) then 0 else 1 + FirstMatch(cohorts[1..], targetSize)
  }

  function Allocated(e: Engine, proposal: string, targetSize: real, user: string): Engine {
    var id := AssignmentId(proposal, user);
    var i := FirstMatch(e.cohorts, targetSize);
    if i < |e.cohorts| && FindAssignment(e.assignments, id) == |e.assignments|
    then e.(assignments := e.assignments + [Assignment(id, proposal, user, e.cohorts[i].id, e.cohorts[i].size, 0)])
    else e
  }

  function Joined(e: Engine, c: Cohort): Engine {
    if Registered(e.cohorts, c.id) then e else e.(cohorts := e.cohorts + [c])
  }

  function Moved(a: Assignment, next: Cohort): Assignment {
    a.(cohortId := next.id, cohortSize := next.size, stage := a.stage + 1)
  }

  function Progressed(e: Engine, id: string): Engine {
    var i := FindAssignment(e.assignments, id);
    if i == |e.assignments| then e
    else
      var a := e.assignments[i];
      var next := NextCohort(e.cohorts, a.cohortId);
      if next.None? then e
      else e.(assignments := e.assignments[i := Moved(a, next.value)],
              progressions := e.progressions + [Progression(id, a.cohortId, next.value.id, a.stage + 1)])
  }

  /** Assignment `i`, the first with the id, and no other, moves to the next cohort, one stage further, and the step is
      recorded. */
  ghost predicate Advances(e: Engine, d: Engine, id: string, i: nat, next: Cohort) {
    && i < |e.assignments| && (forall j :: 0 <= j < i ==> e.assignments[j].id != id)
    && var a := e.assignments[i];
    && a.id == id && NextCohort(e.cohorts, a.cohortId) == Strings.Some(next)
    && d.cohorts == e.cohorts
    && d.progressions == e.progressions + [Progression(a.id, a.cohortId, next.id, a.stage + 1)]
    && |d.assignments| == |e.assignments|
    && d.assignments[i] == Assignment(a.id, a.proposal, a.user, next.id, next.size, a.stage + 1)
    && forall j :: 0 <= j < |e.assignments| && j != i ==> d.assignments[j] == e.assignments[j]
  }

  datatype NextReply = Unknown | Final | Next(cohort: Cohort)

  datatype AllocationReply = NoCohorts | NoMatch | Duplicate | Assigned(assignment: Assignment)

  datatype ProgressReply = NotFound | UnknownCohort | AlreadyFinal | Advanced(progression: Progression)

  class MultiCohortEngine {
    var cohorts: seq<Cohort>
    var assignments: seq<Assignment>
    var progressions: seq<Progression>

    function Value(): Engine
      reads this
    {
      Engine(cohorts, assignments, progressions)
    }

    constructor ()
      ensures Value() == Engine([], [], [])
    {
      cohorts, assignments, progressions := [], [], [];
    }

    /** false is the exception for a registered id. */
    method RegisterCohort(c: Cohort) returns (ok: bool)
      modifies this
      ensures ok <==> !Registered(old(cohorts), c.id)
      ensures Value() == Joined(old(Value()), c)
      ensures cohorts == if ok then old(cohorts) + [c] else old(cohorts)
    {
      if Registered(cohorts, c.id) {
        return false;
      }
      cohorts := cohorts + [c];
      return true;
    }

    method GetNextCohort(id: string) returns (reply: NextReply)
      ensures reply == if !Registered(cohorts, id) then Unknown
                       else match NextCohort(cohorts, id) case None => Final case Some(c) => Next(c)
    {
      if !Registered(cohorts, id) {
        return Unknown;
      }
      var sortedCohorts := SortBy(cohorts, SIZE);
      var currentIndex := Find(sortedCohorts, id);
      if currentIndex + 1 < |sortedCohorts| {
        return Next(sortedCohorts[currentIndex + 1]);
      }
      return Final;
    }

    method AllocateToCohort(proposal: string, targetSize: real, user: string) returns (reply: AllocationReply)
      modifies this
      ensures Value() == Allocated(old(Value()), proposal, targetSize, user)
      ensures reply.Assigned? <==> Value() != old(Value())
      ensures reply.Assigned? ==> assignments == old(assignments) + [reply.assignment]
      ensures cohorts == old(cohorts) && progressions == old(progressions)
      ensures reply.NoCohorts? <==> cohorts == []
      ensures reply.NoMatch? <==> cohorts != [] && forall c <- cohorts :: !Near(c.size, targetSize)
      ensures reply.Duplicate? <==>
        && (exists c <- cohorts :: Near(c.size, targetSize))
        && (exists a <- old(assignments) :: a.id == AssignmentId(proposal, user))
      ensures reply.Assigned? ==> exists c ::
        && IsFirstNear(cohorts, targetSize, c)
        && reply.assignment == Assignment(AssignmentId(proposal, user), proposal, user, c.id, c.size, 0)
    {
      forall c {
        MatchesWhenNear(c, targetSize);
      }
      hide Matches, Near, AssignmentId;
      if |cohorts| == 0 {
        return NoCohorts;
      }
      var i := 0;
      while i < |cohorts| && !Matches(cohorts[i], targetSize)
        invariant 0 <= i <= |cohorts| && forall j :: 0 <= j < i ==> !Matches(cohorts[j], targetSize)
      {
        i := i + 1;
      }
      assert i == FirstMatch(cohorts, targetSize);
      if i == |cohorts| {
        return NoMatch;
      }
      assert cohorts[i] in cohorts;
      var id := AssignmentId(proposal, user);
      var assignment := Assignment(id, proposal, user, cohorts[i].id, cohorts[i].size, 0);
      if FindAssignment(assignments, id) < |assignments| {
        return Duplicate;
      }
      assignments := assignments + [assignment];
      return Assigned(assignment);
    }

    method ProgressToNextCohort(id: string) returns (reply: ProgressReply)
      modifies this
      ensures reply.NotFound? <==> FindAssignment(old(assignments), id) == |old(assignments)|
      ensures reply.UnknownCohort? <==>
        var i := FindAssignment(old(assignments), id);
        i < |old(assignments)| && !Registered(old(cohorts), old(assignments)[i].cohortId)
      ensures reply.AlreadyFinal? <==>
        var i := FindAssignment(old(assignments), id);
        i < |old(assignments)| && Registered(old(cohorts), old(assignments)[i].cohortId)
        && NextCohort(old(cohorts), old(assignments)[i].cohortId).None?
      ensures reply.Advanced? <==> Value() != old(Value())
      ensures reply.Advanced? ==> progressions == old(progressions) + [reply.progression]
      ensures reply.Advanced? ==> exists i, next :: Advances(old(Value()), Value(), id, i, next)
      ensures Value() == if reply.UnknownCohort? then old(Value()) else Progressed(old(Value()), id)
    {
      var i := FindAssignment(assignments, id);
      if i == |assignments| {
        return NotFound;
      }
      var assignment := assignments[i];
      var next := GetNextCohort(assignment.cohortId);
      if next.Unknown? {
        return UnknownCohort;
      }
      if next.Final? {
        return AlreadyFinal;
      }
      var progression := Progression(id, assignment.cohortId, next.cohort.id, assignment.stage + 1);
      progressions := progressions + [progression];
      assignments := assignments[i := Moved(assignment, next.cohort)];
      assert Advances(old(Value()), Value(), id, i, next.cohort);
      return Advanced(progression);
    }

    method ValidateAssignmentSize(a: Assignment) returns (valid: bool)
      ensures valid <==> ValidSize(cohorts, a)
      ensures valid <==>
        Registered(cohorts, a.cohortId) && Within(cohorts[Find(cohorts, a.cohortId)].size, a.cohortSize)
    {
      var i := Find(cohorts, a.cohortId);
      if i == |cohorts| {
        return false;
      }
      MatchesWhenNear(cohorts[i], a.cohortSize);
      return !(Abs(cohorts[i].size - a.cohortSize) > Tolerance(cohorts[i].size));
    }
  }

  /** The cohort is registered and the size of the assignment within the tolerance of its own. */
  predicate ValidSize(cohorts: seq<Cohort>, a: Assignment) {
    var i := Find(cohorts, a.cohortId);
    i < |cohorts| && Within(cohorts[i].size, a.cohortSize)
  }

  // ----- the order of cohorts --------------------------------------------

  ghost predicate DistinctIds(cohorts: seq<Cohort>) {
    forall i, j :: 0 <= i < j < |cohorts| ==> cohorts[i].id != cohorts[j].id
  }

  /** By size, then by registration. */
  ghost predicate Less(cohorts: seq<Cohort>, i: nat, j: nat)
    requires i < |cohorts| && j < |cohorts|
  {
    cohorts[i].size < cohorts[j].size || (cohorts[i].size == cohorts[j].size && i < j)
  }

  /** The same for ids. */
  ghost predicate Before(cohorts: seq<Cohort>, a: string, b: string) {
    && Registered(cohorts, a) && Registered(cohorts, b)
    && Less(cohorts, Find(cohorts, a), Find(cohorts, b))
  }

  /** `xs` are cohorts among the first `n`, in that order. */
  ghost predicate InOrder(cohorts: seq<Cohort>, n: nat, xs: seq<Cohort>) {
    && (forall x <- xs ::
          Find(cohorts, x.id) < |cohorts| && Find(cohorts, x.id) < n && cohorts[Find(cohorts, x.id)] == x)
    && (forall i, j :: 0 <= i < j < |xs| ==> Before(cohorts, xs[i].id, xs[j].id))
  }

  lemma FindSelf(cohorts: seq<Cohort>, i: nat)
    requires DistinctIds(cohorts) && i < |cohorts|
    ensures Find(cohorts, cohorts[i].id) == i
  {
  }

  lemma {:induction false} ConsInOrder(cohorts: seq<Cohort>, n: nat, x: Cohort, xs: seq<Cohort>)
    requires InOrder(cohorts, n, xs) && Find(cohorts, x.id) < n <= |cohorts| && cohorts[Find(cohorts, x.id)] == x
    requires forall y <- xs :: Before(cohorts, x.id, y.id)
    ensures InOrder(cohorts, n, [x] + xs)
  {
    var r := [x] + xs;
    hide Before, Find;
    forall i, j | 0 <= i < j < |r| ensures Before(cohorts, r[i].id, r[j].id) {
      if i == 0 {
        assert r[j] in xs;
      }
    }
  }

  lemma LaterBefore(cohorts: seq<Cohort>, n: nat, xs: seq<Cohort>)
    requires InOrder(cohorts, n, xs) && xs != []
    ensures InOrder(cohorts, n, xs[1..]) && forall y <- xs[1..] :: Before(cohorts, xs[0].id, y.id)
  {
    hide Before, Find;
    forall y <- xs[1..] ensures Before(cohorts, xs[0].id, y.id) {
      var k :| 0 <= k < |xs[1..]| && xs[1..][k] == y;
      assert Before(cohorts, xs[0].id, xs[k + 1].id);
    }
    forall i, j | 0 <= i < j < |xs[1..]| ensures Before(cohorts, xs[1..][i].id, xs[1..][j].id) {
      assert Before(cohorts, xs[i + 1].id, xs[j + 1].id);
    }
  }

  lemma InOrderGrows(cohorts: seq<Cohort>, n: nat, xs: seq<Cohort>)
    requires InOrder(cohorts, n, xs)
    ensures InOrder(cohorts, n + 1, xs)
  {
  }

  /** A later registered cohort comes before exactly the earlier ones that are larger. */
  lemma CompareNew(cohorts: seq<Cohort>, n: nat, y: Cohort)
    requires DistinctIds(cohorts) && n < |cohorts| && Find(cohorts, y.id) < n && cohorts[Find(cohorts, y.id)] == y
    ensures Find(cohorts, cohorts[n].id) == n
    ensures if SIZE(cohorts[n]) < SIZE(y) then Before(cohorts, cohorts[n].id, y.id)
            else Before(cohorts, y.id, cohorts[n].id)
  {
    FindSelf(cohorts, n);
  }

  lemma BeforeTransitive(cohorts: seq<Cohort>, a: string, b: string, c: string)
    requires Before(cohorts, a, b) && Before(cohorts, b, c)
    ensures Before(cohorts, a, c)
  {
  }

  lemma InsertFront(cohorts: seq<Cohort>, n: nat, xs: seq<Cohort>)
    requires DistinctIds(cohorts) && n < |cohorts| && InOrder(cohorts, n, xs)
    requires xs == [] || SIZE(cohorts[n]) < SIZE(xs[0])
    ensures InOrder(cohorts, n + 1, [cohorts[n]] + xs)
  {
    var x := cohorts[n];
    FindSelf(cohorts, n);
    InOrderGrows(cohorts, n, xs);
    if xs != [] {
      CompareNew(cohorts, n, xs[0]);
      LaterBefore(cohorts, n, xs);
    }
    hide Find, Before, DistinctIds, InOrder;
    forall z <- xs ensures Before(cohorts, x.id, z.id) {
      if z != xs[0] {
        assert z in xs[1..];
        BeforeTransitive(cohorts, x.id, xs[0].id, z.id);
      }
    }
    ConsInOrder(cohorts, n + 1, x, xs);
  }

  lemma {:induction false} InsertInOrder(cohorts: seq<Cohort>, n: nat, xs: seq<Cohort>)
    requires DistinctIds(cohorts) && n < |cohorts| && InOrder(cohorts, n, xs)
    ensures InOrder(cohorts, n + 1, Insert(cohorts[n], xs, SIZE))
  {
    var x := cohorts[n];
    if xs == [] || SIZE(x) < SIZE(xs[0]) {
      InsertFront(cohorts, n, xs);
    } else {
      CompareNew(cohorts, n, xs[0]);
      LaterBefore(cohorts, n, xs);
      InOrderGrows(cohorts, n, xs);
      InsertInOrder(cohorts, n, xs[1..]);
      InsertElements(x, xs[1..], SIZE);
      assert Find(cohorts, xs[0].id) < n + 1 && cohorts[Find(cohorts, xs[0].id)] == xs[0];
      hide InOrder, Find, Before, DistinctIds;
      ConsInOrder(cohorts, n + 1, xs[0], Insert(x, xs[1..], SIZE));
    }
  }

  lemma EmptyInOrder(cohorts: seq<Cohort>)
    ensures cohorts[..0] == [] && SortBy([], SIZE) == [] && InOrder(cohorts, 0, [])
  {
  }

  lemma SortedNext(cohorts: seq<Cohort>, n: nat)
    requires n < |cohorts|
    ensures SortBy(cohorts[..n + 1], SIZE) == Insert(cohorts[n], SortBy(cohorts[..n], SIZE), SIZE)
  {
    hide Insert;
    assert cohorts[..n + 1][..n] == cohorts[..n];
  }

  lemma {:induction false} SortedInOrder(cohorts: seq<Cohort>, n: nat)
    requires DistinctIds(cohorts) && n <= |cohorts|
    ensures InOrder(cohorts, n, SortBy(cohorts[..n], SIZE))
  {
    hide *;
    if n == 0 {
      EmptyInOrder(cohorts);
    } else {
      SortedInOrder(cohorts, n - 1);
      InsertInOrder(cohorts, n - 1, SortBy(cohorts[..n - 1], SIZE));
      SortedNext(cohorts, n - 1);
    }
  }

  /** The next cohort is the least one after the current, in the order of size and registration; there is none exactly
      when the current one is the last. */
  lemma {:induction false} NextIsSuccessor(cohorts: seq<Cohort>, id: string)
    requires DistinctIds(cohorts) && Registered(cohorts, id)
    ensures match NextCohort(cohorts, id)
            case None => forall c <- cohorts :: !Before(cohorts, id, c.id)
            case Some(n) =>
              && n in cohorts && Before(cohorts, id, n.id)
              && forall c <- cohorts :: !(Before(cohorts, id, c.id) && Before(cohorts, c.id, n.id))
  {
    hide SortBy, Find, DistinctIds, InOrder, Before, Registered;
    SortedCohorts(cohorts, id);
    var r := SortBy(cohorts, SIZE);
    var i := Find(r, id);
    if i + 1 < |r| {
      Ascending(cohorts, r, i, i + 1);
      assert r[i + 1] in r;
    }
    forall c <- cohorts
      ensures i + 1 < |r| ==> !(Before(cohorts, id, c.id) && Before(cohorts, c.id, r[i + 1].id))
      ensures i + 1 == |r| ==> !Before(cohorts, id, c.id)
    {
      NothingBetween(cohorts, r, i, c);
    }
  }

  lemma {:induction false} SortedCohorts(cohorts: seq<Cohort>, id: string)
    requires DistinctIds(cohorts) && Registered(cohorts, id)
    ensures var r := SortBy(cohorts, SIZE);
      && InOrder(cohorts, |cohorts|, r) && Find(r, id) < |r| && forall c :: c in r <==> c in cohorts
  {
    SortedInOrder(cohorts, |cohorts|);
    assert cohorts[..|cohorts|] == cohorts;
    SortMembers(cohorts, SIZE);
    FindIn(SortBy(cohorts, SIZE), cohorts[Find(cohorts, id)]);
    hide SortBy, DistinctIds, InOrder;
  }

  lemma FindIn(cohorts: seq<Cohort>, c: Cohort)
    requires c in cohorts
    ensures Find(cohorts, c.id) < |cohorts|
  {
  }

  lemma Ascending(cohorts: seq<Cohort>, r: seq<Cohort>, i: nat, j: nat)
    requires InOrder(cohorts, |cohorts|, r) && i < j < |r|
    ensures Before(cohorts, r[i].id, r[j].id)
  {
    hide Before, Find;
  }

  lemma BeforeIsStrict(cohorts: seq<Cohort>, a: string, b: string)
    ensures Before(cohorts, a, b) ==> !Before(cohorts, b, a) && a != b
  {
  }

  lemma NothingBetween(cohorts: seq<Cohort>, r: seq<Cohort>, i: nat, c: Cohort)
    requires InOrder(cohorts, |cohorts|, r) && i < |r| && c in r
    ensures i + 1 < |r| ==> !(Before(cohorts, r[i].id, c.id) && Before(cohorts, c.id, r[i + 1].id))
    ensures i + 1 == |r| ==> !Before(cohorts, r[i].id, c.id)
  {
    hide InOrder, Before;
    var k :| 0 <= k < |r| && r[k] == c;
    if k < i {
      Ascending(cohorts, r, k, i);
      BeforeIsStrict(cohorts, c.id, r[i].id);
    } else if k == i {
      BeforeIsStrict(cohorts, c.id, c.id);
    } else if k > i + 1 {
      Ascending(cohorts, r, i + 1, k);
      BeforeIsStrict(cohorts, r[i + 1].id, c.id);
    } else {
      BeforeIsStrict(cohorts, c.id, c.id);
    }
  }

  // ----- ranks -----------------------------------------------------------

  /** How many of the first `n` cohorts come before cohort `i`. */
  ghost function Rank(cohorts: seq<Cohort>, n: nat, i: nat): nat
    requires n <= |cohorts| && i < |cohorts|
  {
    if n == 0 then 0 else Rank(cohorts, n - 1, i) + (if Less(cohorts, n - 1, i) then 1 else 0)
  }

  lemma {:induction false} RankBelow(cohorts: seq<Cohort>, n: nat, i: nat)
    requires n <= |cohorts| && i < |cohorts|
    ensures Rank(cohorts, n, i) <= if i < n then n - 1 else n
  {
    if n > 0 {
      RankBelow(cohorts, n - 1, i);
    }
  }

  lemma {:induction false} RankGrows(cohorts: seq<Cohort>, n: nat, i: nat, j: nat)
    requires n <= |cohorts| && i < |cohorts| && j < |cohorts| && Less(cohorts, i, j)
    ensures Rank(cohorts, n, j) >= Rank(cohorts, n, i) + (if i < n then 1 else 0)
  {
    if n > 0 {
      RankGrows(cohorts, n - 1, i, j);
    }
  }

  lemma {:induction false} RankKept(cohorts: seq<Cohort>, c: Cohort, n: nat, i: nat)
    requires n <= |cohorts| && i < |cohorts|
    ensures Rank(cohorts + [c], n, i) == Rank(cohorts, n, i)
  {
    if n > 0 {
      RankKept(cohorts, c, n - 1, i);
    }
  }

  ghost function RankOf(cohorts: seq<Cohort>, id: string): nat
    requires Registered(cohorts, id)
  {
    Rank(cohorts, |cohorts|, Find(cohorts, id))
  }

  // ----- every reachable state -------------------------------------------

  function StepsOf(progressions: seq<Progression>, id: string): seq<Progression> {
    if progressions == [] then []
    else
      var p := progressions[|progressions| - 1];
      StepsOf(progressions[..|progressions| - 1], id) + (if p.assignmentId == id then [p] else [])
  }

  /** The records link up, end at the current cohort, and are numbered from 1. */
  ghost predicate Chain(steps: seq<Progression>, current: string) {
    && (forall k :: 0 <= k < |steps| ==> steps[k].stage == k + 1)
    && (forall k :: 0 < k < |steps| ==> steps[k].fromCohort == steps[k - 1].toCohort)
    && (steps != [] ==> steps[|steps| - 1].toCohort == current)
  }

  ghost predicate Faithful(e: Engine, a: Assignment) {
    && Registered(e.cohorts, a.cohortId) && a.cohortSize == e.cohorts[Find(e.cohorts, a.cohortId)].size
    && a.stage == |StepsOf(e.progressions, a.id)|
    && Chain(StepsOf(e.progressions, a.id), a.cohortId)
    && a.stage <= RankOf(e.cohorts, a.cohortId) && a.id == AssignmentId(a.proposal, a.user)
  }

  ghost predicate Forward(e: Engine, p: Progression) {
    Before(e.cohorts, p.fromCohort, p.toCohort) && FindAssignment(e.assignments, p.assignmentId) < |e.assignments|
  }

  ghost predicate DistinctAssignments(assignments: seq<Assignment>) {
    forall i, j :: 0 <= i < j < |assignments| ==> assignments[i].id != assignments[j].id
  }

  ghost predicate Inv(e: Engine) {
    && DistinctIds(e.cohorts) && DistinctAssignments(e.assignments)
    && (forall a <- e.assignments :: Faithful(e, a))
    && (forall p <- e.progressions :: Forward(e, p))
  }

  lemma {:induction false} FindKept(cohorts: seq<Cohort>, c: Cohort, id: string)
    ensures Find(cohorts + [c], id) == if Registered(cohorts, id) then Find(cohorts, id)
                                       else if c.id == id then |cohorts| else |cohorts| + 1
  {
    if cohorts != [] && cohorts[0].id != id {
      FindKept(cohorts[1..], c, id);
      assert (cohorts + [c])[1..] == cohorts[1..] + [c];
    }
  }

  lemma RegisterKeepsOne(cohorts: seq<Cohort>, c: Cohort, id: string)
    requires Registered(cohorts, id)
    ensures Registered(cohorts + [c], id)
    ensures (cohorts + [c])[Find(cohorts + [c], id)] == cohorts[Find(cohorts, id)]
    ensures RankOf(cohorts + [c], id) >= RankOf(cohorts, id)
    ensures forall b :: Before(cohorts, id, b) ==> Before(cohorts + [c], id, b)
  {
    FindKept(cohorts, c, id);
    RankKept(cohorts, c, |cohorts|, Find(cohorts, id));
    forall b | Before(cohorts, id, b) ensures Before(cohorts + [c], id, b) {
      FindKept(cohorts, c, b);
    }
  }

  lemma {:induction false} RegisterKeeps(e: Engine, c: Cohort)
    requires Inv(e) && !Registered(e.cohorts, c.id)
    ensures Inv(e.(cohorts := e.cohorts + [c]))
  {
    var d := e.(cohorts := e.cohorts + [c]);
    forall a <- d.assignments ensures Faithful(d, a) {
      assert Faithful(e, a);
      RegisterKeepsOne(e.cohorts, c, a.cohortId);
      hide Chain, StepsOf, Find, RankOf;
    }
    forall p <- d.progressions ensures Forward(d, p) {
      assert Forward(e, p);
      RegisterKeepsOne(e.cohorts, c, p.fromCohort);
    }
    assert DistinctIds(d.cohorts) by {
      assert forall j :: 0 <= j < |e.cohorts| ==> e.cohorts[j].id != c.id;
    }
    hide Faithful, Forward, Find;
  }

  lemma {:induction false} NoSteps(progressions: seq<Progression>, id: string)
    requires forall p <- progressions :: p.assignmentId != id
    ensures StepsOf(progressions, id) == []
  {
    if progressions != [] {
      NoSteps(progressions[..|progressions| - 1], id);
    }
  }

  lemma {:induction false} FindAssignmentKept(assignments: seq<Assignment>, a: Assignment, id: string)
    ensures var i := FindAssignment(assignments + [a], id);
      FindAssignment(assignments, id) < |assignments| ==> i == FindAssignment(assignments, id)
  {
    if assignments != [] && assignments[0].id != id {
      FindAssignmentKept(assignments[1..], a, id);
      assert (assignments + [a])[1..] == assignments[1..] + [a];
    }
  }

  lemma AllocateKeeps(e: Engine, proposal: string, targetSize: real, user: string)
    requires Inv(e)
    ensures Inv(Allocated(e, proposal, targetSize, user))
  {
    hide SimpleHash;
    var d, i := Allocated(e, proposal, targetSize, user), FirstMatch(e.cohorts, targetSize);
    if d != e {
      var id := AssignmentId(proposal, user);
      var a := Assignment(id, proposal, user, e.cohorts[i].id, e.cohorts[i].size, 0);
      assert d.assignments == e.assignments + [a] && d.progressions == e.progressions && d.cohorts == e.cohorts;
      forall p <- d.progressions ensures Forward(d, p) && p.assignmentId != id {
        assert Forward(e, p);
        FindAssignmentKept(e.assignments, a, p.assignmentId);
      }
      NoSteps(e.progressions, id);
      FindSelf(e.cohorts, i);
      assert Faithful(d, a);
      forall b <- e.assignments ensures Faithful(d, b) {
        assert Faithful(e, b);
      }
      hide Faithful, Forward, Find, Allocated;
    }
  }

  lemma {:induction false} FindAssignmentMoved(assignments: seq<Assignment>, i: nat, a: Assignment, id: string)
    requires i < |assignments| && a.id == assignments[i].id
    ensures FindAssignment(assignments[i := a], id) == FindAssignment(assignments, id)
  {
    if assignments[0].id != id && |assignments| > 1 {
      if i > 0 {
        FindAssignmentMoved(assignments[1..], i - 1, a, id);
        assert assignments[i := a][1..] == assignments[1..][i - 1 := a];
      } else {
        assert assignments[i := a][1..] == assignments[1..];
      }
    }
  }

  lemma StepsAppend(progressions: seq<Progression>, p: Progression, id: string)
    ensures StepsOf(progressions + [p], id) == StepsOf(progressions, id) + (if p.assignmentId == id then [p] else [])
  {
    assert (progressions + [p])[..|progressions|] == progressions;
  }

  lemma {:induction false} NextRegistered(cohorts: seq<Cohort>, id: string)
    requires DistinctIds(cohorts) && Registered(cohorts, id) && NextCohort(cohorts, id).Some?
    ensures var n := NextCohort(cohorts, id).value;
      && Registered(cohorts, n.id) && cohorts[Find(cohorts, n.id)] == n && Before(cohorts, id, n.id)
      && RankOf(cohorts, n.id) >= RankOf(cohorts, id) + 1
  {
    NextIsSuccessor(cohorts, id);
    var n := NextCohort(cohorts, id).value;
    var k :| 0 <= k < |cohorts| && cohorts[k] == n;
    FindSelf(cohorts, k);
    RankGrows(cohorts, |cohorts|, Find(cohorts, id), k);
    hide NextCohort, Rank;
  }

  lemma MovedIsFaithful(e: Engine, a: Assignment, n: Cohort, p: Progression)
    requires Faithful(e, a) && p == Progression(a.id, a.cohortId, n.id, a.stage + 1)
    requires Registered(e.cohorts, n.id) && e.cohorts[Find(e.cohorts, n.id)] == n
    requires RankOf(e.cohorts, n.id) >= RankOf(e.cohorts, a.cohortId) + 1
    ensures Faithful(e.(progressions := e.progressions + [p]), Moved(a, n))
  {
    StepsAppend(e.progressions, p, a.id);
    hide StepsOf, Find, RankOf;
  }

  lemma OthersStayFaithful(e: Engine, d: Engine, b: Assignment, p: Progression)
    requires Faithful(e, b) && b.id != p.assignmentId && d.cohorts == e.cohorts
      && d.progressions == e.progressions + [p]
    ensures Faithful(d, b)
  {
    StepsAppend(e.progressions, p, b.id);
    assert StepsOf(d.progressions, b.id) == StepsOf(e.progressions, b.id);
    hide StepsOf, Find, RankOf, Chain;
  }

  lemma {:induction false} ProgressKeeps(e: Engine, id: string)
    requires Inv(e)
    ensures Inv(Progressed(e, id))
  {
    var d, i := Progressed(e, id), FindAssignment(e.assignments, id);
    if d != e {
      var a := e.assignments[i];
      assert Faithful(e, a);
      NextRegistered(e.cohorts, a.cohortId);
      var n := NextCohort(e.cohorts, a.cohortId).value;
      var p := Progression(id, a.cohortId, n.id, a.stage + 1);
      MovedIsFaithful(e, a, n, p);
      hide NextCohort, Find, RankOf, StepsOf, Chain, Before;
      assert d.assignments == e.assignments[i := Moved(a, n)] && d.progressions == e.progressions + [p];
      assert d.cohorts == e.cohorts && Faithful(d, Moved(a, n));
      forall b <- d.assignments ensures Faithful(d, b) {
        var j :| 0 <= j < |d.assignments| && d.assignments[j] == b;
        if j != i {
          assert e.assignments[j] == b && Faithful(e, b);
          OthersStayFaithful(e, d, b, p);
        }
      }
      forall q <- d.progressions ensures Forward(d, q) {
        FindAssignmentMoved(e.assignments, i, Moved(a, n), q.assignmentId);
        if q != p {
          assert q in e.progressions && Forward(e, q);
        }
      }
      assert DistinctAssignments(d.assignments);
      hide Faithful, Forward;
    }
  }

  datatype Event = Register(cohort: Cohort) | Allocate(proposal: string, targetSize: real, user: string)
                 | Progress(id: string)

  function Happened(e: Engine, event: Event): Engine {
    match event
    case Register(c) => Joined(e, c)
    case Allocate(proposal, targetSize, user) => Allocated(e, proposal, targetSize, user)
    case Progress(id) => Progressed(e, id)
  }

  function After(e: Engine, es: seq<Event>): Engine {
    if es == [] then e else Happened(After(e, es[..|es| - 1]), es[|es| - 1])
  }

  lemma {:induction false} ReachableInv(es: seq<Event>)
    ensures Inv(After(Engine([], [], []), es))
  {
    if es != [] {
      ReachableInv(es[..|es| - 1]);
      var d := After(Engine([], [], []), es[..|es| - 1]);
      match es[|es| - 1]
      case Register(c) =>
        if !Registered(d.cohorts, c.id) {
          RegisterKeeps(d, c);
        }
      case Allocate(proposal, targetSize, user) => AllocateKeeps(d, proposal, targetSize, user);
      case Progress(id) => ProgressKeeps(d, id);
      hide Inv, Registered;
    }
  }

  /** In every reachable state each assignment's records chain up to its current cohort, its stage is their number and
      its size the registered one; every record goes strictly forward; and no assignment has made more steps than there
      are other cohorts, even while cohorts are still being registered. */
  lemma {:induction false} AssignmentHistory(es: seq<Event>, a: Assignment)
    requires a in After(Engine([], [], []), es).assignments
    ensures var e := After(Engine([], [], []), es);
      && Chain(StepsOf(e.progressions, a.id), a.cohortId) && a.stage == |StepsOf(e.progressions, a.id)|
      && Registered(e.cohorts, a.cohortId) && a.cohortSize == e.cohorts[Find(e.cohorts, a.cohortId)].size
      && ValidSize(e.cohorts, a) && a.stage <= |e.cohorts| - 1
      && forall p <- e.progressions :: Before(e.cohorts, p.fromCohort, p.toCohort)
  {
    var e := After(Engine([], [], []), es);
    ReachableInv(es);
    assert Faithful(e, a);
    RankBelow(e.cohorts, |e.cohorts|, Find(e.cohorts, a.cohortId));
    forall p <- e.progressions ensures Before(e.cohorts, p.fromCohort, p.toCohort) {
      assert Forward(e, p);
    }
    hide After, StepsOf, Chain, Rank, Before, DistinctIds, DistinctAssignments;
  }

  // ----- which requests get the same id ----------------------------------

  lemma {:induction false} HexPlain(n: nat)
    ensures Strings.Without(Hex(n), '-')
  {
    if n >= 16 {
      HexPlain(n / 16);
    }
  }

  /** The hash without wrap-around: a polynomial in 31. */
  function Polynomial(s: string): nat {
    if s == "" then 0 else 31 * Polynomial(s[..|s| - 1]) + s[|s| - 1] as nat
  }

  ghost predicate Congruent(x: int, y: int) {
    exists k :: x - y == k * 0x1_0000_0000
  }

  lemma Wraps(x: int)
    ensures -0x8000_0000 <= ToInt32(x) < 0x8000_0000 && Congruent(ToInt32(x), x)
  {
    var k := (x + 0x8000_0000) / 0x1_0000_0000;
    assert ToInt32(x) - x == -k * 0x1_0000_0000;
  }

  lemma NextHash(hash: int, poly: int, c: int)
    requires Congruent(hash, poly)
    ensures Congruent(ToInt32(ToInt32(hash * 32) - hash + c), 31 * poly + c)
  {
    Wraps(hash * 32);
    Wraps(ToInt32(hash * 32) - hash + c);
    var i :| hash - poly == i * 0x1_0000_0000;
    var j :| ToInt32(hash * 32) - hash * 32 == j * 0x1_0000_0000;
    var k :| ToInt32(ToInt32(hash * 32) - hash + c) - (ToInt32(hash * 32) - hash + c) == k * 0x1_0000_0000;
    hide ToInt32;
    assert ToInt32(ToInt32(hash * 32) - hash + c) - (31 * poly + c) == (k + j + 31 * i) * 0x1_0000_0000;
  }

  /** The hash is that polynomial modulo 2^32, as a signed 32-bit number. */
  lemma {:induction false} HashIsPolynomial(s: string)
    ensures -0x8000_0000 <= HashOf(s) < 0x8000_0000 && Congruent(HashOf(s), Polynomial(s))
  {
    if s == "" {
      assert HashOf(s) - Polynomial(s) == 0 * 0x1_0000_0000;
    } else {
      var before := s[..|s| - 1];
      HashIsPolynomial(before);
      NextHash(HashOf(before), Polynomial(before), s[|s| - 1] as int);
      Wraps(ToInt32(HashOf(before) * 32) - HashOf(before) + s[|s| - 1] as int);
      hide ToInt32, Congruent;
    }
  }

  function DigitValue(c: char): int {
    if '0' <= c <= '9' then c as int - '0' as int else c as int - 'a' as int + 10
  }

  function HexValue(digits: string): int {
    if digits == "" then 0 else 16 * HexValue(digits[..|digits| - 1]) + DigitValue(digits[|digits| - 1])
  }

  predicate HexDigit(c: char) {
    '0' <= c <= '9' || 'a' <= c <= 'f'
  }

  lemma OneDigit(n: nat)
    requires n < 16
    ensures HexDigit(DIGITS[n]) && DigitValue(DIGITS[n]) == n && (DIGITS[n] == '0' <==> n == 0)
  {
  }

  /** The digits spell the number, without a leading zero. */
  lemma {:induction false} HexSpells(n: nat)
    ensures HexValue(Hex(n)) == n && (forall c <- Hex(n) :: HexDigit(c))
    ensures Hex(n) != "" && (Hex(n)[0] == '0' ==> n == 0)
  {
    if n < 16 {
      OneDigit(n);
      assert [DIGITS[n]][..0] == "";
    } else {
      HexSpells(n / 16);
      OneDigit(n % 16);
      assert (Hex(n / 16) + [DIGITS[n % 16]])[..|Hex(n / 16)|] == Hex(n / 16);
    }
    hide DigitValue, HexDigit;
  }

  /** An assignment id is the request's text between the prefix and the hash's magnitude in hexadecimal. */
  lemma AssignmentIdReads(proposal: string, user: string) returns (hash: int, digits: string)
    ensures AssignmentId(proposal, user)
         == "assign-" + (if user == "" then proposal else proposal + "-" + user) + "-" + digits
    ensures HexValue(digits) == (if hash >= 0 then hash else -hash) && forall c <- digits :: HexDigit(c)
    ensures -0x8000_0000 <= hash < 0x8000_0000
    ensures Congruent(hash, Polynomial(if user == "" then proposal else proposal + "-" + user))
  {
    var text := if user == "" then proposal else proposal + "-" + user;
    hash := HashOf(text);
    HashIsPolynomial(text);
    var n := if hash < 0 then -hash else hash;
    digits := Hex(n);
    HexSpells(n);
    hide HashOf, Hex, HexValue, Polynomial, Congruent;
  }

  /** The hash has no hyphen, so the id determines what was hashed. */
  lemma SimpleHashInjective(s: string, t: string)
    requires SimpleHash(s) == SimpleHash(t)
    ensures s == t
  {
    var i, j := HashOf(s), HashOf(t);
    var x, y := Hex(if i < 0 then -i else i), Hex(if j < 0 then -j else j);
    HexPlain(if i < 0 then -i else i);
    HexPlain(if j < 0 then -j else j);
    hide *;
    CutLast("assign-" + s, x, "assign-" + t, y, '-');
    assert s == ("assign-" + s)[7..] && t == ("assign-" + t)[7..];
  }

  lemma CutLast(a: string, x: string, b: string, y: string, c: char)
    requires Strings.Without(x, c) && Strings.Without(y, c) && a + [c] + x == b + [c] + y
    ensures a == b
  {
    Strings.SplitLast(a, c, x);
    Strings.SplitLast(b, c, y);
    assert x == (Strings.Split(a, c) + [x])[|Strings.Split(a, c)|];
    assert y == (Strings.Split(b, c) + [y])[|Strings.Split(b, c)|];
    assert |x| == |y|;
    assert a == (a + [c] + x)[..|a|] && b == (b + [c] + y)[..|b|];
  }

  /** Two requests get the same id exactly when proposal and user join to the same text. */
  lemma SameIdIffSameText(p: string, u: string, q: string, v: string)
    ensures AssignmentId(p, u) == AssignmentId(q, v) <==> Requested(p, u) == Requested(q, v)
  {
    if AssignmentId(p, u) == AssignmentId(q, v) {
      SimpleHashInjective(Requested(p, u), Requested(q, v));
    }
    hide SimpleHash, Requested;
  }

  lemma HyphenInside(p: string, u: string)
    ensures !Strings.Without(p + "-" + u, '-')
  {
    assert (p + "-" + u)[|p|] == '-';
  }

  /** For proposals without a hyphen that is exactly when the requests are the same. */
  lemma SameIdIffSameRequest(p: string, u: string, q: string, v: string)
    requires Strings.Without(p, '-') && Strings.Without(q, '-')
    ensures AssignmentId(p, u) == AssignmentId(q, v) <==> p == q && u == v
  {
    SameIdIffSameText(p, u, q, v);
    HyphenInside(p, u);
    HyphenInside(q, v);
    if u != "" && v != "" && Requested(p, u) == Requested(q, v) {
      Strings.CutOnce(p, u, q, v, '-');
    }
    hide AssignmentId;
  }

  /** With a hyphen it may not be: a user of one proposal and no user of the proposal named like both join to the same
      text, and whoever comes second is refused. */
  lemma AssignmentIdsCollide(e: Engine, proposal: string, size: real, user: string, other: real)
    requires user != "" && Allocated(e, proposal, size, user) != e
    ensures var d := Allocated(e, proposal, size, user); Allocated(d, proposal + "-" + user, other, "") == d
  {
    var d := Allocated(e, proposal, size, user);
    assert d.assignments[|e.assignments|].id == AssignmentId(proposal + "-" + user, "");
    hide SimpleHash;
  }

  /** In every reachable state a request whose size matches is refused exactly when one that joins to the same text was
      assigned before; without hyphens in proposals that is the same request. */
  lemma {:induction false} RefusedIffRepeated(es: seq<Event>, proposal: string, size: real, user: string)
    requires FirstMatch(After(Engine([], [], []), es).cohorts, size) < |After(Engine([], [], []), es).cohorts|
    ensures var e := After(Engine([], [], []), es);
      && (Allocated(e, proposal, size, user) == e
          <==> exists a <- e.assignments :: Requested(a.proposal, a.user) == Requested(proposal, user))
      && forall a <- e.assignments :: Strings.Without(a.proposal, '-') && Strings.Without(proposal, '-') ==>
           (Requested(a.proposal, a.user) == Requested(proposal, user) <==> a.proposal == proposal && a.user == user)
  {
    var e, id := After(Engine([], [], []), es), AssignmentId(proposal, user);
    ReachableInv(es);
    forall a <- e.assignments
      ensures a.id == id <==> Requested(a.proposal, a.user) == Requested(proposal, user)
      ensures Strings.Without(a.proposal, '-') && Strings.Without(proposal, '-') ==>
        (Requested(a.proposal, a.user) == Requested(proposal, user) <==> a.proposal == proposal && a.user == user)
    {
      assert Faithful(e, a);
      SameIdIffSameText(a.proposal, a.user, proposal, user);
      if Strings.Without(a.proposal, '-') && Strings.Without(proposal, '-') {
        SameIdIffSameRequest(a.proposal, a.user, proposal, user);
      }
    }
    HasAssignment(e.assignments, id);
    hide After, Inv, AssignmentId, FindAssignment, Requested;
  }

  lemma HasAssignment(assignments: seq<Assignment>, id: string)
    ensures FindAssignment(assignments, id) < |assignments| <==> exists a <- assignments :: a.id == id
  {
    var i := FindAssignment(assignments, id);
    if i < |assignments| {
      assert assignments[i] in assignments;
    }
  }

  const TENTH := Cohort("a", 0.1)
  const QUARTER := Cohort("b", 0.25)

  /** A run in which an assignment moves: it starts in the cohort whose size was asked for and goes on to the next. */
  lemma AssignmentMoves(proposal: string, user: string)
    ensures var id := AssignmentId(proposal, user);
      After(Engine([], [], []), [Register(QUARTER), Register(TENTH), Allocate(proposal, 0.1, user), Progress(id)])
      == Engine([QUARTER, TENTH], [Assignment(id, proposal, user, "b", 0.25, 1)], [Progression(id, "a", "b", 1)])
  {
    BothRegistered();
    Starts(proposal, user);
    Moves(Assignment(AssignmentId(proposal, user), proposal, user, "a", 0.1, 0));
    hide *;
    FourEvents(Engine([], [], []), Register(QUARTER), Register(TENTH), Allocate(proposal, 0.1, user),
               Progress(AssignmentId(proposal, user)));
  }

  lemma FourEvents(e: Engine, a: Event, b: Event, c: Event, d: Event)
    ensures After(e, [a, b, c, d]) == Happened(Happened(Happened(Happened(e, a), b), c), d)
  {
    assert After(e, []) == e;
    hide *;
    NextEvent(e, [], a);
    NextEvent(e, [a], b);
    NextEvent(e, [a, b], c);
    NextEvent(e, [a, b, c], d);
    assert [] + [a] == [a] && [a] + [b] == [a, b] && [a, b] + [c] == [a, b, c] && [a, b, c] + [d] == [a, b, c, d];
  }

  lemma BothRegistered()
    ensures Happened(Engine([], [], []), Register(QUARTER)) == Engine([QUARTER], [], [])
    ensures Happened(Engine([QUARTER], [], []), Register(TENTH)) == Engine([QUARTER, TENTH], [], [])
  {
    assert QUARTER.id[0] == 'b' && TENTH.id[0] == 'a';
    assert [QUARTER] + [TENTH] == [QUARTER, TENTH];
  }

  lemma Starts(proposal: string, user: string)
    ensures var id := AssignmentId(proposal, user);
      Happened(Engine([QUARTER, TENTH], [], []), Allocate(proposal, 0.1, user))
      == Engine([QUARTER, TENTH], [Assignment(id, proposal, user, "a", 0.1, 0)], [])
  {
    MatchesWhenNear(TENTH, 0.1);
    MatchesWhenNear(QUARTER, 0.1);
    assert Near(TENTH.size, 0.1) && !Near(QUARTER.size, 0.1);
    hide Matches, Near, AssignmentId;
    assert [QUARTER, TENTH][1..] == [TENTH];
    assert FirstMatch([QUARTER, TENTH], 0.1) == 1;
  }

  lemma Moves(a: Assignment)
    requires a.cohortId == "a"
    ensures Happened(Engine([QUARTER, TENTH], [a], []), Progress(a.id))
         == Engine([QUARTER, TENTH], [a.(cohortId := "b", cohortSize := 0.25, stage := a.stage + 1)],
                   [Progression(a.id, "a", "b", a.stage + 1)])
  {
    assert QUARTER.id[0] == 'b' && TENTH.id[0] == 'a';
    FirstThenSecond(TENTH, QUARTER);
    hide NextCohort;
    assert FindAssignment([a], a.id) == 0;
    assert [a][0 := Moved(a, QUARTER)] == [Moved(a, QUARTER)];
  }

  lemma NextEvent(e: Engine, es: seq<Event>, last: Event)
    ensures After(e, es + [last]) == Happened(After(e, es), last)
  {
    assert (es + [last])[..|es|] == es;
    hide Happened;
  }

  lemma FirstThenSecond(first: Cohort, second: Cohort)
    requires first.id != second.id && first.size < second.size
    ensures NextCohort([second, first], first.id) == Strings.Some(second)
  {
    assert [second, first][..1] == [second] && [second][..0] == [];
    assert SortBy([second], SIZE) == [second];
    assert SortBy([second, first], SIZE) == [first, second];
  }
}
