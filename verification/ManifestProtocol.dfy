/** Several processes working on one manifest under a lock file (ingestionManifest.ts, pruneManifest.ts,
    repairManifest.ts, quarantineReview.ts). Every file operation is one step of the process that performs it; the steps
    of different processes interleave at will. */
module ManifestProtocol {
  import opened Strings
  import opened ManifestLines

  /** The files beside the lock; None is a manifest that does not exist. All archive files count as one. */
  datatype Files = Files(manifest: Option<seq<Line>>, archive: seq<Line>, backup: Option<seq<Line>>)

  /** Recording an ingestion and appending a reviewed record both add one line. */
  datatype Op = Append(line: Line) | Prune(cutoff: Date) | Repair

  function LinesOf(manifest: Option<seq<Line>>): seq<Line> {
    if manifest.Some? then manifest.value else []
  }

  // ----- one operation on its own ----------------------------------------

  function Apply(f: Files, op: Op): Files {
    match op
    case Append(line) => f.(manifest := Some(LinesOf(f.manifest) + [line]))
    case Prune(cutoff) =>
      if f.manifest.None? then f
      else f.(manifest := Some(Retained(f.manifest.value, cutoff)),
              archive := f.archive + Archived(f.manifest.value, cutoff))
    case Repair =>
      if f.manifest.None? then f
      else f.(manifest := Some(Valid(f.manifest.value)),
              backup := if Corrupted(f.manifest.value) != [] then f.manifest else f.backup)
  }

  function ApplyAll(f: Files, ops: seq<Op>): Files {
    if ops == [] then f else Apply(ApplyAll(f, ops[..|ops| - 1]), ops[|ops| - 1])
  }

  /** Every line is in the manifest as often as before if it stays, and else not at all; every line that goes is that
      much more often in the archive. */
  ghost predicate ByDates(f: Files, g: Files, cutoff: Date) {
    && f.manifest.Some? == g.manifest.Some? && g.backup == f.backup
    && forall l ::
         && multiset(LinesOf(g.manifest))[l] == (if Stays(l, cutoff) then multiset(LinesOf(f.manifest))[l] else 0)
         && multiset(g.archive)[l]
            == multiset(f.archive)[l] + (if Goes(l, cutoff) then multiset(LinesOf(f.manifest))[l] else 0)
  }

  lemma PruneMovesByDate(f: Files, cutoff: Date)
    ensures ByDates(f, Apply(f, Op.Prune(cutoff)), cutoff)
  {
    var ls := LinesOf(f.manifest);
    Elements(f.archive, Archived(ls, cutoff));
    forall l
      ensures multiset(Retained(ls, cutoff))[l] == if Stays(l, cutoff) then multiset(ls)[l] else 0
      ensures multiset(Archived(ls, cutoff))[l] == if Goes(l, cutoff) then multiset(ls)[l] else 0
    {
      PruneCounts(ls, cutoff, l);
    }
    hide Stays, Goes, Retained, Archived;
  }

  /** Every line is in the manifest as often as before if it is a complete record, and else not at all; if there was any
      other, the manifest as it was is the new backup. */
  ghost predicate Repairs(f: Files, g: Files) {
    && f.manifest.Some? == g.manifest.Some? && g.archive == f.archive
    && (forall l ::
          multiset(LinesOf(g.manifest))[l] == if Whole(l) then multiset(LinesOf(f.manifest))[l] else 0)
    && g.backup == if forall l <- LinesOf(f.manifest) :: Whole(l) then f.backup else f.manifest
  }

  lemma RepairKeepsWhole(f: Files)
    ensures Repairs(f, Apply(f, Op.Repair))
  {
    var ls := LinesOf(f.manifest);
    NoneCorrupted(ls);
    forall l ensures multiset(Valid(ls))[l] == if Whole(l) then multiset(ls)[l] else 0 {
      RepairCounts(ls, l);
    }
    hide Whole, Valid, Corrupted;
  }

  datatype Reply = Locked | Appended | Pruned(stats: PruneStats) | Repaired(report: RepairStats)

  /** The files as one process sees them when no other is running. */
  class Workspace {
    var lockFile: bool
    var manifest: Option<seq<Line>>
    var archive: seq<Line>
    var backup: Option<seq<Line>>

    function Value(): Files
      reads this
    {
      Files(manifest, archive, backup)
    }

    constructor (manifest: Option<seq<Line>>)
      ensures !lockFile && Value() == Files(manifest, [], None)
    {
      lockFile, this.manifest, archive, backup := false, manifest, [], None;
    }

    /** `tries` is how often the loop gets to look at the lock file before the timeout. */
    method AcquireLock(tries: nat) returns (ok: bool)
      modifies this`lockFile
      ensures ok <==> tries > 0 && !old(lockFile)
      ensures lockFile == (old(lockFile) || ok)
    {
      var i := 0;
      while i < tries
        invariant 0 <= i <= tries && lockFile == old(lockFile) && (i > 0 ==> lockFile)
      {
        if !lockFile {
          lockFile := true;
          return true;
        }
        i := i + 1;
      }
      return false;
    }

    method ReleaseLock()
      modifies this`lockFile
      ensures !lockFile
    {
      if lockFile {
        lockFile := false;
      }
    }

    method AppendRecord(line: Line, tries: nat) returns (reply: Reply)
      modifies this
      ensures lockFile == old(lockFile)
      ensures reply == if tries > 0 && !old(lockFile) then Appended else Locked
      ensures Value() == if reply.Locked? then old(Value()) else Apply(old(Value()), Append(line))
    {
      var lockAcquired := AcquireLock(tries);
      if !lockAcquired {
        return Locked;
      }
      manifest := Some(LinesOf(manifest) + [line]);
      ReleaseLock();
      return Appended;
    }

    /** `pruneManifest` under the lock. */
    method PruneManifest(cutoff: Date, tries: nat) returns (reply: Reply)
      modifies this
      ensures lockFile == old(lockFile)
      ensures reply == if tries > 0 && !old(lockFile) then Pruned(PruneStatsOf(LinesOf(old(manifest)), cutoff))
                       else Locked
      ensures Value() == if reply.Locked? then old(Value()) else Apply(old(Value()), Op.Prune(cutoff))
      ensures reply.Pruned? ==> ByDates(old(Value()), Value(), cutoff)
    {
      PruneMovesByDate(Value(), cutoff);
      hide ByDates;
      var lockAcquired := AcquireLock(tries);
      if !lockAcquired {
        return Locked;
      }
      if manifest.None? {
        ReleaseLock();
        return Pruned(PruneStats(0, 0, 0, None, None));
      }
      var kept, gone, stats := SplitForPrune(manifest.value, cutoff);
      if |gone| > 0 {
        archive := archive + gone;
      }
      manifest := Some(kept);
      ReleaseLock();
      return Pruned(stats);
    }

    method RepairManifest(tries: nat) returns (reply: Reply)
      modifies this
      ensures lockFile == old(lockFile)
      ensures reply == if tries > 0 && !old(lockFile) then Repaired(RepairStatsOf(LinesOf(old(manifest)))) else Locked
      ensures Value() == if reply.Locked? then old(Value()) else Apply(old(Value()), Op.Repair)
      ensures reply.Repaired? ==> Repairs(old(Value()), Value())
    {
      RepairKeepsWhole(Value());
      hide Repairs;
      var lockAcquired := AcquireLock(tries);
      if !lockAcquired {
        return Locked;
      }
      if manifest.None? {
        ReleaseLock();
        return Repaired(RepairStats(0, 0, [], []));
      }
      var valid, stats := SplitForRepair(manifest.value);
      if |stats.corrupted| > 0 {
        backup := manifest;
      }
      manifest := Some(valid);
      ReleaseLock();
      return Repaired(stats);
    }
  }

  // ----- several processes -----------------------------------------------

  /** Where a process is. From `Entered` to `Leaving` it has created the lock file and not yet removed it. */
  datatype Pc = Idle
              | Waiting(op: Op)
              | Entered(op: Op)
              | Split(cutoff: Date, kept: seq<Line>, gone: seq<Line>)
              | Rewriting(kept: seq<Line>, cutoff: Date)
              | Checked(valid: seq<Line>, corrupted: bool)
              | Restoring(valid: seq<Line>)
              | Leaving

  predicate Inside(pc: Pc) {
    !pc.Idle? && !pc.Waiting?
  }

  /** `log` lists the operations in the order of their last write. */
  datatype System = System(lockFile: bool, files: Files, pcs: seq<Pc>, log: seq<Op>)

  datatype Event = Begin(pid: nat, op: Op) | Acquire(pid: nat) | TimeOut(pid: nat) | Step(pid: nat)

  predicate Enabled(s: System, e: Event) {
    && e.pid < |s.pcs|
    && match e
       case Begin(pid, op) => s.pcs[pid].Idle?
       case Acquire(pid) => s.pcs[pid].Waiting? && !s.lockFile
       case TimeOut(pid) => s.pcs[pid].Waiting?
       case Step(pid) => Inside(s.pcs[pid])
  }

  ghost function Work(s: System, pid: nat): System
    requires pid < |s.pcs| && Inside(s.pcs[pid])
  {
    var f := s.files;
    match s.pcs[pid]
    case Entered(Append(line)) =>
      s.(files := f.(manifest := Some(LinesOf(f.manifest) + [line])), pcs := s.pcs[pid := Leaving],
         log := s.log + [Append(line)])
    case Entered(Prune(cutoff)) =>
      if f.manifest.None? then s.(pcs := s.pcs[pid := Leaving], log := s.log + [Prune(cutoff)])
      else
        var kept, gone := Retained(f.manifest.value, cutoff), Archived(f.manifest.value, cutoff);
        s.(pcs := s.pcs[pid := Split(cutoff, kept, gone)])
    case Split(cutoff, kept, gone) =>
      s.(files := f.(archive := f.archive + gone), pcs := s.pcs[pid := Rewriting(kept, cutoff)])
    case Rewriting(kept, cutoff) =>
      s.(files := f.(manifest := Some(kept)), pcs := s.pcs[pid := Leaving], log := s.log + [Prune(cutoff)])
    case Entered(Repair) =>
      if f.manifest.None? then s.(pcs := s.pcs[pid := Leaving], log := s.log + [Repair])
      else s.(pcs := s.pcs[pid := Checked(Valid(f.manifest.value), Corrupted(f.manifest.value) != [])])
    case Checked(valid, corrupted) =>
      s.(files := if corrupted then f.(backup := f.manifest) else f, pcs := s.pcs[pid := Restoring(valid)])
    case Restoring(valid) =>
      s.(files := f.(manifest := Some(valid)), pcs := s.pcs[pid := Leaving], log := s.log + [Repair])
    case Leaving => s.(lockFile := false, pcs := s.pcs[pid := Idle])
  }

  /** An event that cannot happen changes nothing, so every list of events is a run. */
  ghost function Next(s: System, e: Event): System {
    if !Enabled(s, e) then s
    else
      match e
      case Begin(pid, op) => s.(pcs := s.pcs[pid := Waiting(op)])
      case Acquire(pid) => s.(lockFile := true, pcs := s.pcs[pid := Entered(s.pcs[pid].op)])
      case TimeOut(pid) => s.(pcs := s.pcs[pid := Idle])
      case Step(pid) => Work(s, pid)
  }

  ghost function After(s: System, es: seq<Event>): System
    decreases |es|
  {
    if es == [] then s else After(Next(s, es[0]), es[1..])
  }

  ghost function Initial(files: Files, processes: nat): System {
    System(false, files, seq(processes, _ => Idle), [])
  }

  // ----- the invariant ---------------------------------------------------

  /** At most one process is between acquire and release, and the lock file exists exactly when one is. */
  ghost predicate Exclusive(lockFile: bool, pcs: seq<Pc>) {
    && (forall i, j :: 0 <= i < |pcs| && 0 <= j < |pcs| && Inside(pcs[i]) && Inside(pcs[j]) ==> i == j)
    && (lockFile <==> exists i :: 0 <= i < |pcs| && Inside(pcs[i]))
  }

  /** What the files are while a process is at `pc`, when `f` is what the finished operations made of them. */
  ghost predicate Midway(f: Files, now: Files, pc: Pc) {
    match pc
    case Split(cutoff, kept, gone) =>
      && now == f && f.manifest.Some?
      && kept == Retained(f.manifest.value, cutoff) && gone == Archived(f.manifest.value, cutoff)
    case Rewriting(kept, cutoff) =>
      && f.manifest.Some? && kept == Retained(f.manifest.value, cutoff)
      && now == f.(archive := f.archive + Archived(f.manifest.value, cutoff))
    case Checked(valid, corrupted) =>
      && now == f && f.manifest.Some? && valid == Valid(f.manifest.value)
      && (corrupted <==> Corrupted(f.manifest.value) != [])
    case Restoring(valid) =>
      && f.manifest.Some? && valid == Valid(f.manifest.value)
      && now == f.(backup := if Corrupted(f.manifest.value) != [] then f.manifest else f.backup)
    case _ => now == f
  }

  ghost predicate Serial(init: Files, s: System) {
    && (forall i :: 0 <= i < |s.pcs| && Inside(s.pcs[i]) ==> Midway(ApplyAll(init, s.log), s.files, s.pcs[i]))
    && (!s.lockFile ==> s.files == ApplyAll(init, s.log))
  }

  lemma ApplyAllLast(f: Files, ops: seq<Op>, op: Op)
    ensures ApplyAll(f, ops + [op]) == Apply(ApplyAll(f, ops), op)
  {
    assert (ops + [op])[..|ops|] == ops;
  }

  lemma OneMoves(lockFile: bool, pcs: seq<Pc>, pid: nat, pc: Pc)
    requires Exclusive(lockFile, pcs) && pid < |pcs|
    requires Inside(pc) && !Inside(pcs[pid]) ==> !lockFile
    ensures Exclusive(if Inside(pc) == Inside(pcs[pid]) then lockFile else Inside(pc), pcs[pid := pc])
  {
    var next := pcs[pid := pc];
    if Inside(pc) {
      assert Inside(next[pid]);
    } else if !Inside(pcs[pid]) {
      if i :| 0 <= i < |pcs| && Inside(pcs[i]) {
        assert Inside(next[i]);
      }
    }
  }

  /** The shape of a step of the process inside. */
  lemma WorkMoves(s: System, pid: nat)
    requires pid < |s.pcs| && Inside(s.pcs[pid])
    ensures var t := Work(s, pid);
      && |t.pcs| == |s.pcs| && t.pcs == s.pcs[pid := t.pcs[pid]]
      && (if s.pcs[pid].Leaving? then t.pcs[pid].Idle? && !t.lockFile
         else Inside(t.pcs[pid]) && t.lockFile == s.lockFile)
      && (t.log == s.log || (|t.log| == |s.log| + 1 && t.log[..|s.log|] == s.log))
  {
    hide Retained, Archived, Valid, Corrupted;
  }

  /** `f` after the operation that the step finishes, if it finishes one. */
  ghost function Finished(f: Files, before: seq<Op>, after: seq<Op>): Files {
    if |after| == |before| + 1 then Apply(f, after[|before|]) else f
  }

  lemma FinishedIsApplyAll(init: Files, before: seq<Op>, after: seq<Op>)
    requires after == before || (|after| == |before| + 1 && after[..|before|] == before)
    ensures Finished(ApplyAll(init, before), before, after) == ApplyAll(init, after)
  {
    hide Apply, ApplyAll;
    if |after| == |before| + 1 {
      assert after == before + [after[|before|]];
      ApplyAllLast(init, before, after[|before|]);
    } else {
      assert after == before;
    }
  }

  /** One step of the process inside moves the files along its operation. */
  lemma {:induction false} WorkIsMidway(f: Files, s: System, pid: nat)
    requires pid < |s.pcs| && Inside(s.pcs[pid]) && Midway(f, s.files, s.pcs[pid])
    ensures pid < |Work(s, pid).pcs|
    ensures var t := Work(s, pid); Midway(Finished(f, s.log, t.log), t.files, t.pcs[pid])
  {
    hide Retained, Archived, Valid, Corrupted;
  }

  lemma NextKeepsExclusive(s: System, e: Event)
    requires Exclusive(s.lockFile, s.pcs) && Enabled(s, e)
    ensures Exclusive(Next(s, e).lockFile, Next(s, e).pcs)
    ensures |Next(s, e).pcs| == |s.pcs| && Next(s, e).pcs == s.pcs[e.pid := Next(s, e).pcs[e.pid]]
  {
    if e.Step? {
      WorkMoves(s, e.pid);
      assert Inside(s.pcs[e.pid]) && s.lockFile;
      hide Work;
    }
    OneMoves(s.lockFile, s.pcs, e.pid, Next(s, e).pcs[e.pid]);
    hide Exclusive;
  }

  lemma {:induction false} NextKeepsSerial(init: Files, s: System, e: Event)
    requires Exclusive(s.lockFile, s.pcs) && Serial(init, s) && Enabled(s, e)
    ensures Serial(init, Next(s, e))
  {
    var t, f := Next(s, e), ApplyAll(init, s.log);
    NextKeepsExclusive(s, e);
    if e.Step? {
      WorkMoves(s, e.pid);
      WorkIsMidway(f, s, e.pid);
      FinishedIsApplyAll(init, s.log, t.log);
      IdleIsDone(ApplyAll(init, t.log), t.files, t.pcs[e.pid]);
      assert Inside(s.pcs[e.pid]) && s.lockFile;
      hide Work, Midway, ApplyAll, Finished;
    } else {
      IdleIsDone(f, s.files, t.pcs[e.pid]);
      hide ApplyAll, Midway;
    }
  }

  /** Outside an operation, and just inside it, nothing is under way. */
  lemma IdleIsDone(f: Files, now: Files, pc: Pc)
    ensures pc.Idle? || pc.Waiting? || pc.Entered? || pc.Leaving? ==> (Midway(f, now, pc) <==> now == f)
  {
  }

  lemma {:induction false} RunKeeps(init: Files, s: System, es: seq<Event>)
    requires Exclusive(s.lockFile, s.pcs) && Serial(init, s)
    ensures Exclusive(After(s, es).lockFile, After(s, es).pcs) && Serial(init, After(s, es))
    decreases |es|
  {
    if es != [] {
      if Enabled(s, es[0]) {
        NextKeepsExclusive(s, es[0]);
        NextKeepsSerial(init, s, es[0]);
      }
      hide Exclusive, Serial;
      RunKeeps(init, Next(s, es[0]), es[1..]);
    }
  }

  lemma InitialKeeps(files: Files, processes: nat)
    ensures var s := Initial(files, processes); Exclusive(s.lockFile, s.pcs) && Serial(files, s)
  {
  }

  /** In every interleaving at most one process is between acquire and release. */
  lemma MutualExclusion(files: Files, processes: nat, es: seq<Event>)
    ensures var t := After(Initial(files, processes), es); Exclusive(t.lockFile, t.pcs)
  {
    InitialKeeps(files, processes);
    RunKeeps(files, Initial(files, processes), es);
  }

  // ----- which operations the log holds ----------------------------------

  /** The operations that took the lock, in that order. */
  ghost function Acquired(s: System, es: seq<Event>): seq<Op>
    decreases |es|
  {
    if es == [] then []
    else
      var e := es[0];
      (if e.Acquire? && Enabled(s, e) then [s.pcs[e.pid].op] else []) + Acquired(Next(s, e), es[1..])
  }

  /** How often `x` was begun, and how often it gave up waiting for the lock. */
  ghost function Begun(s: System, es: seq<Event>, x: Op): nat
    decreases |es|
  {
    if es == [] then 0
    else Once(es[0].Begin? && Enabled(s, es[0]) && es[0].op == x) + Begun(Next(s, es[0]), es[1..], x)
  }

  ghost function GivenUp(s: System, es: seq<Event>, x: Op): nat
    decreases |es|
  {
    if es == [] then 0
    else
      Once(es[0].TimeOut? && Enabled(s, es[0]) && s.pcs[es[0].pid].op == x) + GivenUp(Next(s, es[0]), es[1..], x)
  }

  function Once(yes: bool): nat {
    if yes then 1 else 0
  }

  /** The operation a process inside has yet to log. */
  function Unlogged(pc: Pc): seq<Op> {
    match pc
    case Entered(op) => [op]
    case Split(cutoff, _, _) => [Prune(cutoff)]
    case Rewriting(_, cutoff) => [Prune(cutoff)]
    case Checked(_, _) => [Repair]
    case Restoring(_) => [Repair]
    case _ => []
  }

  ghost predicate Logged(s: System, acquired: seq<Op>) {
    && (forall i :: 0 <= i < |s.pcs| && Inside(s.pcs[i]) ==> acquired == s.log + Unlogged(s.pcs[i]))
    && (!s.lockFile ==> acquired == s.log)
  }

  /** A step of the process inside logs its operation once, or keeps it to log. */
  lemma WorkLogs(s: System, pid: nat)
    requires pid < |s.pcs| && Inside(s.pcs[pid])
    ensures pid < |Work(s, pid).pcs|
      && Work(s, pid).log + Unlogged(Work(s, pid).pcs[pid]) == s.log + Unlogged(s.pcs[pid])
  {
    hide Retained, Archived, Valid, Corrupted;
  }

  lemma NextKeepsLogged(s: System, e: Event, acquired: seq<Op>)
    requires Exclusive(s.lockFile, s.pcs) && Logged(s, acquired) && Enabled(s, e)
    ensures Logged(Next(s, e), acquired + if e.Acquire? then [s.pcs[e.pid].op] else [])
  {
    NextKeepsExclusive(s, e);
    if e.Step? {
      WorkMoves(s, e.pid);
      WorkLogs(s, e.pid);
      assert Inside(s.pcs[e.pid]) && s.lockFile;
    }
    assert acquired + [] == acquired;
    hide Work;
  }

  lemma {:induction false} RunKeepsLogged(s: System, es: seq<Event>, acquired: seq<Op>)
    requires Exclusive(s.lockFile, s.pcs) && Logged(s, acquired)
    ensures Logged(After(s, es), acquired + Acquired(s, es))
    decreases |es|
  {
    if es == [] {
      assert acquired + [] == acquired;
    } else {
      var e := es[0];
      var now := if e.Acquire? && Enabled(s, e) then [s.pcs[e.pid].op] else [];
      if Enabled(s, e) {
        NextKeepsExclusive(s, e);
        NextKeepsLogged(s, e, acquired);
      } else {
        assert acquired + [] == acquired;
      }
      hide Exclusive, Logged;
      RunKeepsLogged(Next(s, e), es[1..], acquired + now);
      assert acquired + now + Acquired(Next(s, e), es[1..]) == acquired + Acquired(s, es);
    }
  }

  /** How many processes wait with `x` for the lock. */
  function WaitingWith(pcs: seq<Pc>, x: Op): nat {
    if pcs == [] then 0 else WaitingWith(pcs[..|pcs| - 1], x) + Once(pcs[|pcs| - 1] == Waiting(x))
  }

  lemma {:induction false} WaitingMoves(pcs: seq<Pc>, pid: nat, pc: Pc, x: Op)
    requires pid < |pcs|
    ensures WaitingWith(pcs[pid := pc], x) + Once(pcs[pid] == Waiting(x))
      == WaitingWith(pcs, x) + Once(pc == Waiting(x))
  {
    var n := |pcs| - 1;
    if pid < n {
      WaitingMoves(pcs[..n], pid, pc, x);
      assert pcs[pid := pc][..n] == pcs[..n][pid := pc] && pcs[pid := pc][n] == pcs[n];
    } else {
      assert pcs[pid := pc][..n] == pcs[..n];
    }
  }

  lemma {:induction false} NextWaits(s: System, e: Event, x: Op)
    requires Enabled(s, e)
    ensures WaitingWith(Next(s, e).pcs, x) + Once((e.Acquire? || e.TimeOut?) && s.pcs[e.pid].op == x)
         == WaitingWith(s.pcs, x) + Once(e.Begin? && e.op == x)
  {
    if e.Step? {
      WorkMoves(s, e.pid);
    }
    WaitingMoves(s.pcs, e.pid, Next(s, e).pcs[e.pid], x);
    hide Work, WaitingWith;
  }

  lemma AcquiredFirst(s: System, es: seq<Event>, x: Op)
    requires es != []
    ensures multiset(Acquired(s, es))[x]
         == Once(es[0].Acquire? && Enabled(s, es[0]) && s.pcs[es[0].pid].op == x)
            + multiset(Acquired(Next(s, es[0]), es[1..]))[x]
  {
    hide Next;
  }

  /** Every operation begun has taken the lock, has given up, or is still waiting. */
  lemma {:induction false} BegunAccounted(s: System, es: seq<Event>, x: Op)
    ensures WaitingWith(s.pcs, x) + Begun(s, es, x)
         == multiset(Acquired(s, es))[x] + GivenUp(s, es, x) + WaitingWith(After(s, es).pcs, x)
    decreases |es|
  {
    if es != [] {
      BegunAccounted(Next(s, es[0]), es[1..], x);
      AcquiredFirst(s, es, x);
      if Enabled(s, es[0]) {
        NextWaits(s, es[0], x);
      }
    }
    hide Acquired, WaitingWith, Enabled, Work;
  }

  lemma {:induction false} NobodyWaits(processes: nat, x: Op)
    ensures WaitingWith(seq(processes, _ => Idle), x) == 0
  {
    if processes > 0 {
      NobodyWaits(processes - 1, x);
      assert seq(processes, _ => Idle)[..processes - 1] == seq(processes - 1, _ => Idle);
    }
  }

  /** Whenever the lock is free, the log is the list of operations that took it; while it is held, the holder's own may
      still be missing at the end. And each operation begun took the lock, gave up, or is still waiting. So every
      operation that enters is logged once, between its acquire and its release, and one that timed out never is. */
  lemma LogIsAcquired(files: Files, processes: nat, es: seq<Event>, x: Op)
    ensures var s := Initial(files, processes);
      var t := After(s, es);
      && (!t.lockFile ==> t.log == Acquired(s, es))
      && (forall i :: 0 <= i < |t.pcs| && Inside(t.pcs[i]) ==> t.log + Unlogged(t.pcs[i]) == Acquired(s, es))
      && Begun(s, es, x) == multiset(Acquired(s, es))[x] + GivenUp(s, es, x) + WaitingWith(t.pcs, x)
  {
    var s := Initial(files, processes);
    InitialKeeps(files, processes);
    RunKeepsLogged(s, es, []);
    assert [] + Acquired(s, es) == Acquired(s, es);
    NobodyWaits(processes, x);
    BegunAccounted(s, es, x);
    hide Acquired, Begun, GivenUp, After, WaitingWith, Unlogged, Exclusive;
  }

  /** Whenever the lock is free, the files are what the operations that took it make of them when run one after the
      other. */
  lemma Serialisable(files: Files, processes: nat, es: seq<Event>)
    ensures var s := Initial(files, processes);
      var t := After(s, es);
      !t.lockFile ==> t.log == Acquired(s, es) && t.files == ApplyAll(files, t.log)
  {
    InitialKeeps(files, processes);
    RunKeeps(files, Initial(files, processes), es);
    LogIsAcquired(files, processes, es, Repair);
  }

  // ----- conservation ----------------------------------------------------

  function CompleteIn(f: Files): multiset<Line> {
    CompleteOf(LinesOf(f.manifest)) + CompleteOf(f.archive)
  }

  function LineOf(op: Op): seq<Line> {
    if op.Append? then [op.line] else []
  }

  function AppendedBy(ops: seq<Op>): seq<Line> {
    if ops == [] then []
    else AppendedBy(ops[..|ops| - 1]) + LineOf(ops[|ops| - 1])
  }

  lemma PruneConserves(f: Files, cutoff: Date)
    ensures CompleteIn(Apply(f, Prune(cutoff))) == CompleteIn(f)
  {
    if f.manifest.Some? {
      CompleteSplits(f.manifest.value, cutoff);
      CompleteConcat(f.archive, Archived(f.manifest.value, cutoff));
    }
    hide CompleteOf, Retained, Archived, Valid, Corrupted;
  }

  lemma RepairConserves(f: Files)
    ensures CompleteIn(Apply(f, Repair)) == CompleteIn(f)
  {
    if f.manifest.Some? {
      RepairKeepsComplete(f.manifest.value);
      RepairSettles(f.manifest.value);
      RepairKeepsComplete(Valid(f.manifest.value));
    }
    hide CompleteOf, Retained, Archived, Valid, Corrupted;
  }

  lemma AppendConserves(f: Files, line: Line)
    ensures CompleteIn(Apply(f, Append(line))) == CompleteIn(f) + CompleteOf([line])
  {
    CompleteConcat(LinesOf(f.manifest), [line]);
    hide CompleteOf, Retained, Archived, Valid, Corrupted;
  }

  lemma ApplyConserves(f: Files, op: Op)
    ensures CompleteIn(Apply(f, op)) == CompleteIn(f) + CompleteOf(LineOf(op))
  {
    assert CompleteOf([]) == multiset{};
    hide CompleteOf, CompleteIn, Apply;
    match op
    case Append(line) => AppendConserves(f, line);
    case Prune(cutoff) => PruneConserves(f, cutoff);
    case Repair => RepairConserves(f);
  }

  lemma {:induction false} ApplyAllConserves(f: Files, ops: seq<Op>)
    ensures CompleteIn(ApplyAll(f, ops)) == CompleteIn(f) + CompleteOf(AppendedBy(ops))
  {
    assert CompleteOf([]) == multiset{};
    if ops != [] {
      var rest, op := ops[..|ops| - 1], ops[|ops| - 1];
      ApplyAllConserves(f, rest);
      ApplyConserves(ApplyAll(f, rest), op);
      CompleteConcat(AppendedBy(rest), LineOf(op));
      hide CompleteIn, CompleteOf, Apply;
    }
  }

  /** Whenever the lock is free, manifest and archive together hold exactly the complete records that were there at the
      start or have been appended since, each as often as it was. */
  lemma NoRecordLost(files: Files, processes: nat, es: seq<Event>)
    ensures var t := After(Initial(files, processes), es);
      !t.lockFile ==> CompleteIn(t.files) == CompleteIn(files) + CompleteOf(AppendedBy(t.log))
  {
    Serialisable(files, processes, es);
    ApplyAllConserves(files, After(Initial(files, processes), es).log);
  }
}
