/** When `applyPlan` posts, and what becomes of operations whose create was not carried out. */
module ApplyMeaning {
  import opened Strings
  import opened Gedcomx
  import opened OpKeys
  import opened WriteFindings
  import opened WritePlan
  import opened PlanProperties
  import opened WriteApply
  import opened ApplyProperties

  // ----- time --------------------------------------------------------------

  /** Whether the person is asked to confirm operation `i` in state `x`. */
  predicate Asked(x: Exec, op: Op) {
    !x.halted && (op.dependsOn.None? || op.dependsOn.value == "" || op.dependsOn.value in x.created)
  }

  /** The time spent on confirmations since the last POST, or since the start. */
  function Thought(s: Setting, start: Exec, ops: seq<Op>): int {
    if ops == [] then 0
    else
      var n := |ops| - 1;
      var x, y := Run(s, start, ops[..n]), Run(s, start, ops);
      if !Asked(x, ops[n]) then Thought(s, start, ops[..n])
      else if |y.posts| > |x.posts| then 0
      else Thought(s, start, ops[..n]) + s.world.thinking(n)
  }

  /** The end of the last POST, or the start. */
  function Since(start: Exec, posts: seq<Post>): int {
    if posts == [] then start.clock else posts[|posts| - 1].endedAt
  }

  /** A POST that is confirmed at a time starts right then, unless the last one ended less than the interval before:
      then it starts when the interval is over and the sleep ends. It ends when the answer is there. */
  predicate OnTime(s: Setting, earlier: seq<Post>, confirmedAt: int, p: Post, i: nat) {
    && p.startedAt
       == (if earlier == [] || confirmedAt >= earlier[|earlier| - 1].endedAt + s.minInterval then confirmedAt
           else earlier[|earlier| - 1].endedAt + s.minInterval + s.world.oversleep(i))
    && p.endedAt == p.startedAt + s.world.latency(i)
  }

  /** When the POST for operation `i` would be confirmed, after these POSTs. */
  function ConfirmedAt(s: Setting, start: Exec, ops: seq<Op>, posts: seq<Post>, i: nat): int
    requires i < |ops|
  {
    Since(start, posts) + Thought(s, start, ops[..i]) + s.world.thinking(i)
  }

  ghost predicate OnTimeAt(s: Setting, start: Exec, ops: seq<Op>, earlier: seq<Post>, p: Post, i: nat) {
    i < |ops| && p.op == ops[i] && OnTime(s, earlier, ConfirmedAt(s, start, ops, earlier, i), p, i)
  }

  /** Every POST of the run is on time: `at` says which operation it is for. */
  ghost predicate AllOnTime(s: Setting, start: Exec, ops: seq<Op>, posts: seq<Post>, at: seq<nat>) {
    && |at| == |posts|
    && (forall j, k :: 0 <= j < k < |at| ==> at[j] < at[k])
    && forall k :: 0 <= k < |posts| ==> OnTimeAt(s, start, ops, posts[..k], posts[k], at[k])
  }

  /** Until it halts, the run knows the time and the end of its last POST. */
  ghost predicate KnowsTime(s: Setting, start: Exec, ops: seq<Op>, x: Exec) {
    && (!x.halted ==> x.clock == Since(start, x.posts) + Thought(s, start, ops))
    && (!x.halted ==> x.lastPost == if x.posts == [] then 0 else Since(start, x.posts))
  }

  lemma StepTime(s: Setting, x: Exec, op: Op, i: nat)
    ensures var y := Step(s, x, op, i);
      && (y.posts == x.posts || |y.posts| == |x.posts| + 1)
      && (!Asked(x, op) ==>
            y.posts == x.posts && y.clock == x.clock && y.lastPost == x.lastPost && y.halted == x.halted)
      && (Asked(x, op) && y.posts == x.posts && !y.halted ==>
            y.clock == x.clock + s.world.thinking(i) && y.lastPost == x.lastPost)
      && (|y.posts| > |x.posts| ==> Asked(x, op) && exists p ::
            && y.posts == x.posts + [p] && p.op == op && p.startedAt == StartTime(s, x, i)
            && p.endedAt == p.startedAt + s.world.latency(i) && y.clock == p.endedAt && y.lastPost == p.endedAt)
  {
    hide ResolveRefs, FindResult, ResponseId, DescriptionUrl, StartTime;
  }

  lemma StartIsOnTime(s: Setting, start: Exec, x: Exec, i: nat)
    requires x.lastPost == (if x.posts == [] then 0 else Since(start, x.posts)) && (x.posts != [] ==> x.lastPost != 0)
    ensures var confirmedAt := x.clock + s.world.thinking(i);
      StartTime(s, x, i) == if x.posts == [] || confirmedAt >= x.lastPost + s.minInterval then confirmedAt
                            else x.lastPost + s.minInterval + s.world.oversleep(i)
  {
  }

  lemma OnTimePrefix(s: Setting, start: Exec, ops: seq<Op>, posts: seq<Post>, at: seq<nat>)
    requires ops != [] && AllOnTime(s, start, ops[..|ops| - 1], posts, at)
    ensures AllOnTime(s, start, ops, posts, at) && forall i <- at :: i < |ops| - 1
  {
    hide OnTimeAt;
    forall k | 0 <= k < |posts| ensures OnTimeAt(s, start, ops, posts[..k], posts[k], at[k]) && at[k] < |ops| - 1 {
      SameTurn(s, start, ops, posts[..k], posts[k], at[k]);
    }
  }

  lemma SameTurn(s: Setting, start: Exec, ops: seq<Op>, earlier: seq<Post>, p: Post, i: nat)
    requires ops != [] && OnTimeAt(s, start, ops[..|ops| - 1], earlier, p, i)
    ensures OnTimeAt(s, start, ops, earlier, p, i) && i < |ops| - 1
  {
    assert ops[..|ops| - 1][..i] == ops[..i];
    hide OnTime, Thought, Since;
  }

  lemma OnTimePush(s: Setting, start: Exec, ops: seq<Op>, posts: seq<Post>, at: seq<nat>, p: Post)
    requires ops != [] && AllOnTime(s, start, ops, posts, at) && forall i <- at :: i < |ops| - 1
    requires OnTimeAt(s, start, ops, posts, p, |ops| - 1)
    ensures AllOnTime(s, start, ops, posts + [p], at + [|ops| - 1])
  {
    hide OnTimeAt;
    var all, ats := posts + [p], at + [|ops| - 1];
    forall j, k | 0 <= j < k < |ats| ensures ats[j] < ats[k] {
      assert at[j] in at;
    }
    forall k | 0 <= k < |all| ensures OnTimeAt(s, start, ops, all[..k], all[k], ats[k]) {
      assert all[..k] == posts[..k];
      assert posts[..|posts|] == posts;
    }
  }

  lemma LastStepOf(s: Setting, start: Exec, ops: seq<Op>)
    requires ops != []
    ensures Run(s, start, ops) == Step(s, Run(s, start, ops[..|ops| - 1]), ops[|ops| - 1], |ops| - 1)
  {
    hide Step;
  }

  /** What a step does to the time. */
  lemma KnowsNext(s: Setting, start: Exec, ops: seq<Op>)
    requires ops != [] && KnowsTime(s, start, ops[..|ops| - 1], Run(s, start, ops[..|ops| - 1]))
    ensures KnowsTime(s, start, ops, Run(s, start, ops))
  {
    var n := |ops| - 1;
    StepTime(s, Run(s, start, ops[..n]), ops[n], n);
    LastStepOf(s, start, ops);
    StepHalts(s, Run(s, start, ops[..n]), ops[n], n);
    hide Step, Run;
  }

  lemma PostIsOnTime(s: Setting, start: Exec, before: seq<Op>, x: Exec, p: Post, n: nat)
    requires KnowsTime(s, start, before, x) && !x.halted
    requires p.startedAt == StartTime(s, x, n) && p.endedAt == p.startedAt + s.world.latency(n)
    requires x.posts != [] ==> x.lastPost != 0
    ensures OnTime(s, x.posts, Since(start, x.posts) + Thought(s, start, before) + s.world.thinking(n), p, n)
  {
    StartIsOnTime(s, start, x, n);
    hide Thought, StartTime;
  }

  /** What the last operation adds to the POSTs. */
  lemma LastOnTime(s: Setting, start: Exec, ops: seq<Op>)
    requires start.posts == [] && start.lastPost == 0 && start.clock > 0 && ops != []
    requires KnowsTime(s, start, ops[..|ops| - 1], Run(s, start, ops[..|ops| - 1]))
    ensures var n := |ops| - 1;
      var x, y := Run(s, start, ops[..n]), Run(s, start, ops);
      y.posts == x.posts
      || exists p :: y.posts == x.posts + [p] && OnTimeAt(s, start, ops, x.posts, p, n)
  {
    var n := |ops| - 1;
    var x, y := Run(s, start, ops[..n]), Run(s, start, ops);
    PostsSpaced(s, start, ops[..n]);
    LastStepOf(s, start, ops);
    StepTime(s, x, ops[n], n);
    hide Step, Run, OnTime, Spaced, Thought, Since, StartTime;
    if |y.posts| > |x.posts| {
      var p := y.posts[|x.posts|];
      PostIsOnTime(s, start, ops[..n], x, p, n);
    }
  }

  /** Each POST of a run is on time, so no POST waits longer than the interval asks. */
  lemma {:induction false} PostsOnTime(s: Setting, start: Exec, ops: seq<Op>) returns (at: seq<nat>)
    requires start.posts == [] && start.lastPost == 0 && start.clock > 0 && !start.halted
    ensures AllOnTime(s, start, ops, Run(s, start, ops).posts, at)
    ensures KnowsTime(s, start, ops, Run(s, start, ops))
  {
    if ops == [] {
      return [];
    }
    hide *;
    var n := |ops| - 1;
    var x, y := Run(s, start, ops[..n]), Run(s, start, ops);
    at := PostsOnTime(s, start, ops[..n]);
    KnowsNext(s, start, ops);
    OnTimePrefix(s, start, ops, x.posts, at);
    LastOnTime(s, start, ops);
    if y.posts != x.posts {
      var p :| y.posts == x.posts + [p] && OnTimeAt(s, start, ops, x.posts, p, n);
      OnTimePush(s, start, ops, x.posts, at, p);
      at := at + [n];
    }
  }

  // ----- operations whose create was not carried out ------------------------

  /** The create was posted and its answer named an id. */
  predicate Created(r: OpResult, op: Op) {
    r.status == Posted && op.opType == CreateSource && ResponseId(r.location, r.entityId) != ""
  }

  ghost predicate CreatedAmong(out: seq<OpResult>, ops: seq<Op>, id: string)
    requires |out| == |ops|
  {
    exists j :: 0 <= j < |ops| && ops[j].id == id && Created(out[j], ops[j])
  }

  lemma CreatedPush(out: seq<OpResult>, ops: seq<Op>, r: OpResult, op: Op, id: string)
    requires |out| == |ops|
    ensures CreatedAmong(out + [r], ops + [op], id) <==> CreatedAmong(out, ops, id) || (op.id == id && Created(r, op))
  {
    hide Created;
    var outs, all := out + [r], ops + [op];
    assert outs[|out|] == r && all[|ops|] == op;
    if j :| 0 <= j < |ops| && ops[j].id == id && Created(out[j], ops[j]) {
      assert all[j].id == id && Created(outs[j], all[j]);
    }
    if op.id == id && Created(r, op) {
      assert all[|ops|].id == id && Created(outs[|ops|], all[|ops|]);
    }
  }

  /** What a step makes of its result and of the ids known. */
  lemma StepCreates(s: Setting, x: Exec, op: Op, i: nat)
    ensures var y := Step(s, x, op, i);
      && |y.results| == |x.results| + 1
      && var r := y.results[|x.results|];
      && y.created.Keys == x.created.Keys + (if Created(r, op) then {op.id} else {})
      && (!x.halted && !Asked(x, op) ==>
            r.status == var d := FindResult(x.results, op.dependsOn.value);
                        if d.Some? && d.value.status == Declined then Declined else NotRun)
  {
    hide ResolveRefs, FindResult, ResponseId, DescriptionUrl, StartTime;
  }

  lemma {:induction false} FindsIn(out: seq<OpResult>, id: string, j: nat)
    requires j < |out| && out[j].opId == id && forall i :: 0 <= i < j ==> out[i].opId != id
    ensures FindResult(out, id) == Some(out[j])
  {
    if j > 0 {
      FindsIn(out[1..], id, j - 1);
    }
  }

  lemma {:induction false} FindsBeyond(before: seq<OpResult>, out: seq<OpResult>, id: string)
    requires forall r <- before :: r.opId != id
    ensures FindResult(before + out, id) == FindResult(out, id)
  {
    if before == [] {
      assert before + out == out;
    } else {
      assert (before + out)[1..] == before[1..] + out && before[0] in before;
      FindsBeyond(before[1..], out, id);
    }
  }

  /** A step adds an id to those known exactly if it creates that operation's description. */
  lemma StepAdds(s: Setting, x: Exec, op: Op, i: nat, r: OpResult, id: string)
    requires Step(s, x, op, i).results == x.results + [r]
    ensures id in Step(s, x, op, i).created <==> id in x.created || (op.id == id && Created(r, op))
  {
    StepCreates(s, x, op, i);
    hide Step, Created;
    assert (x.results + [r])[|x.results|] == r;
    assert id in Step(s, x, op, i).created <==> id in Step(s, x, op, i).created.Keys;
  }

  lemma LastOutcome(s: Setting, start: Exec, ops: seq<Op>) returns (r: OpResult)
    requires ops != []
    ensures var n := |ops| - 1;
      && |Outcomes(s, start, ops)| == |ops| && |Outcomes(s, start, ops[..n])| == n
      && Outcomes(s, start, ops) == Outcomes(s, start, ops[..n]) + [r]
      && Step(s, Run(s, start, ops[..n]), ops[n], n).results == Run(s, start, ops[..n]).results + [r]
  {
    var n := |ops| - 1;
    OutcomesCount(s, start, ops);
    OutcomesCount(s, start, ops[..n]);
    RunAppends(s, start, ops);
    LastStepOf(s, start, ops);
    StepAppends(s, Run(s, start, ops[..n]), ops[n], n);
    hide Outcomes, Run, Step;
    var results := Run(s, start, ops).results;
    r := results[|results| - 1];
  }

  /** Of the operations exactly the created ones have an id known to the run. */
  lemma {:induction false} CreatedAre(s: Setting, start: Exec, ops: seq<Op>, id: string)
    requires start.created == map[]
    ensures |Outcomes(s, start, ops)| == |ops|
    ensures id in Run(s, start, ops).created <==> CreatedAmong(Outcomes(s, start, ops), ops, id)
  {
    if ops == [] {
      OutcomesCount(s, start, ops);
    } else {
      hide *;
      var n := |ops| - 1;
      CreatedAre(s, start, ops[..n], id);
      LastStepOf(s, start, ops);
      var r := LastOutcome(s, start, ops);
      StepAdds(s, Run(s, start, ops[..n]), ops[n], n, r, id);
      CreatedPush(Outcomes(s, start, ops[..n]), ops[..n], r, ops[n], id);
      LastOf(ops);
    }
  }

  lemma LastOf(ops: seq<Op>)
    requires ops != []
    ensures ops == ops[..|ops| - 1] + [ops[|ops| - 1]]
  {
  }

  lemma {:induction false} OutcomesPrefix(s: Setting, start: Exec, ops: seq<Op>, k: nat)
    requires k <= |ops|
    ensures |Outcomes(s, start, ops)| == |ops|
    ensures Outcomes(s, start, ops)[..k] == Outcomes(s, start, ops[..k])
  {
    OutcomesCount(s, start, ops);
    hide *;
    if k == |ops| {
      assert ops[..k] == ops;
    } else {
      var n := |ops| - 1;
      OutcomesPrefix(s, start, ops[..n], k);
      var r := LastOutcome(s, start, ops);
      assert ops[..n][..k] == ops[..k];
    }
  }

  /** The result of operation `k` is what its step appends. */
  lemma OutcomeAt(s: Setting, start: Exec, ops: seq<Op>, k: nat)
    requires k < |ops|
    ensures var x := Run(s, start, ops[..k]);
      && |Outcomes(s, start, ops)| == |ops|
      && x.results == start.results + Outcomes(s, start, ops)[..k]
      && Step(s, x, ops[k], k).results == x.results + [Outcomes(s, start, ops)[k]]
  {
    hide *;
    OutcomesPrefix(s, start, ops, k);
    OutcomesPrefix(s, start, ops, k + 1);
    RunAppends(s, start, ops[..k]);
    var r := LastOutcome(s, start, ops[..k + 1]);
    assert ops[..k + 1][..k] == ops[..k] && ops[..k + 1][k] == ops[k];
    var all := Outcomes(s, start, ops);
    assert all[..k + 1][k] == all[k];
  }

  lemma OutcomeIds(s: Setting, start: Exec, ops: seq<Op>)
    ensures |Outcomes(s, start, ops)| == |ops|
    ensures forall i :: 0 <= i < |ops| ==> Outcomes(s, start, ops)[i].opId == ops[i].id
  {
    RunAppends(s, start, ops);
    var out := Outcomes(s, start, ops);
    hide Outcomes, Run;
    assert |ResultIds(out)| == |OpIds(ops)|;
    forall i | 0 <= i < |ops| ensures out[i].opId == ops[i].id {
      assert ResultIds(out)[i] == OpIds(ops)[i];
    }
  }

  lemma IdsApart(ops: seq<Op>, i: nat, j: nat)
    requires DistinctOps(ops) && i < j < |ops|
    ensures ops[i].id != ops[j].id
  {
    assert OpIds(ops)[i] != OpIds(ops)[j];
  }

  /** What the run finds under the id of an earlier operation. */
  lemma FindsEarlier(s: Setting, start: Exec, ops: seq<Op>, j: nat, k: nat)
    requires DistinctOps(ops) && (forall r <- start.results :: r.opId !in OpIds(ops)) && j < k < |ops|
    ensures |Outcomes(s, start, ops)| == |ops|
    ensures FindResult(Run(s, start, ops[..k]).results, ops[j].id) == Some(Outcomes(s, start, ops)[j])
  {
    hide *;
    var out := Outcomes(s, start, ops);
    OutcomeAt(s, start, ops, k);
    OutcomeIds(s, start, ops);
    forall i | 0 <= i < j ensures ops[i].id != ops[j].id {
      IdsApart(ops, i, j);
    }
    InIds(ops, j);
    FindsBeyond(start.results, out[..k], ops[j].id);
    FindsIn(out[..k], ops[j].id, j);
  }

  lemma InIds(ops: seq<Op>, j: nat)
    requires j < |ops|
    ensures ops[j].id in OpIds(ops)
  {
    assert OpIds(ops)[j] == ops[j].id;
  }

  lemma NotCreated(s: Setting, start: Exec, ops: seq<Op>, j: nat, k: nat)
    requires start.created == map[] && DistinctOps(ops) && j < k < |ops|
    requires |Outcomes(s, start, ops)| == |ops| && !Created(Outcomes(s, start, ops)[j], ops[j])
    ensures ops[j].id !in Run(s, start, ops[..k]).created
  {
    CreatedAre(s, start, ops[..k], ops[j].id);
    OutcomesPrefix(s, start, ops, k);
    forall i | 0 <= i < k && ops[..k][i].id == ops[j].id ensures i == j {
      assert OpIds(ops)[i] == OpIds(ops)[j];
    }
    hide Outcomes, Run, Created;
  }

  /** An operation whose create did not take place is not posted: it counts as declined if the create was declined, and
      as not run if that failed, was not run itself or named no id, or if the run is halted. */
  lemma DependentsShareFate(s: Setting, start: Exec, ops: seq<Op>, j: nat, k: nat)
    requires start.created == map[] && DistinctOps(ops) && (forall r <- start.results :: r.opId !in OpIds(ops))
    requires j < k < |ops| && ops[k].dependsOn == Some(ops[j].id) && ops[j].id != ""
    requires |Outcomes(s, start, ops)| == |ops| && !Created(Outcomes(s, start, ops)[j], ops[j])
    ensures var out := Outcomes(s, start, ops);
      out[k].status == if out[j].status == Declined && !Run(s, start, ops[..k]).halted then Declined else NotRun
  {
    var x := Run(s, start, ops[..k]);
    NotCreated(s, start, ops, j, k);
    FindsEarlier(s, start, ops, j, k);
    OutcomeAt(s, start, ops, k);
    StepCreates(s, x, ops[k], k);
    StepHalts(s, x, ops[k], k);
    hide Outcomes, Run, Step, FindResult, Created, ResponseId;
  }
}
