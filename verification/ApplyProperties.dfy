/** What every `applyPlan` run guarantees, whatever the person who confirms answers and the server does. */
module ApplyProperties {
  import opened Strings
  import opened Gedcomx
  import opened OpKeys
  import opened WriteFindings
  import opened WritePlan
  import opened PlanProperties
  import opened WriteApply

  /** Distinct operation ids that equal the fingerprints, as in every plan (PlansWellFormed). */
  ghost predicate Keyed(ops: seq<Op>) {
    DistinctOps(ops) && forall op <- ops :: op.id == Fingerprint(op)
  }

  // ----- one result per planned operation --------------------------------

  function ResultIds(rs: seq<OpResult>): (ids: seq<string>)
    ensures |ids| == |rs| && forall i :: 0 <= i < |rs| ==> ids[i] == rs[i].opId
  {
    seq(|rs|, i requires 0 <= i < |rs| => rs[i].opId)
  }

  lemma {:induction false} StepAppends(s: Setting, x: Exec, op: Op, i: nat)
    ensures var y := Step(s, x, op, i);
      |y.results| == |x.results| + 1 && y.results[..|x.results|] == x.results
      && y.results[|x.results|].opId == op.id && y.results[|x.results|].status != AlreadyPresent
  {
    hide ResolveRefs;
    hide FindResult;
    hide ResponseId;
    hide StartTime;
    hide DescriptionUrl;
  }

  /** The results a run adds to the ones it starts with. */
  function Outcomes(s: Setting, start: Exec, todo: seq<Op>): seq<OpResult> {
    var rs := Run(s, start, todo).results;
    if |start.results| <= |rs| then rs[|start.results|..] else []
  }

  lemma OutcomesCount(s: Setting, start: Exec, todo: seq<Op>)
    ensures |Outcomes(s, start, todo)| == |todo|
  {
    RunAppends(s, start, todo);
    hide Outcomes, Run;
  }

  /** A run appends one result per operation, in order. */
  lemma {:induction false} RunAppends(s: Setting, start: Exec, todo: seq<Op>)
    ensures Run(s, start, todo).results == start.results + Outcomes(s, start, todo)
    ensures ResultIds(Outcomes(s, start, todo)) == OpIds(todo)
    ensures forall r <- Outcomes(s, start, todo) :: r.status != AlreadyPresent
    ensures todo != [] ==>
      Outcomes(s, start, todo) == Outcomes(s, start, todo[..|todo| - 1])
                                  + [Run(s, start, todo).results[|Run(s, start, todo).results| - 1]]
  {
    hide Step;
    if todo != [] {
      var n := |todo| - 1;
      RunAppends(s, start, todo[..n]);
      StepAppends(s, Run(s, start, todo[..n]), todo[n], n);
      var y := Run(s, start, todo);
      var last := y.results[|y.results| - 1];
      assert y.results == Run(s, start, todo[..n]).results + [last];
      assert Outcomes(s, start, todo) == Outcomes(s, start, todo[..n]) + [last];
      assert OpIds(todo) == OpIds(todo[..n]) + [todo[n].id];
    }
  }

  lemma StaleLast(planned: seq<Op>, current: seq<Op>)
    requires Keyed(planned) && planned != []
    ensures var before, op := planned[..|planned| - 1], planned[|planned| - 1];
      && StaleResults(planned, current)
         == StaleResults(before, current) + (if Prints(current, op.id) then [] else [Result(op, AlreadyPresent)])
      && ResultIds(StaleResults(planned, current))
         == ResultIds(StaleResults(before, current)) + (if Prints(current, op.id) then [] else [op.id])
  {
    assert planned[|planned| - 1] in planned;
    hide Prints, Distinct;
  }

  lemma {:induction false} StaleMeaning(planned: seq<Op>, current: seq<Op>)
    requires Keyed(planned) && Keyed(current)
    ensures var stale := StaleResults(planned, current);
      && Distinct(ResultIds(stale))
      && (forall r <- stale :: r.status == AlreadyPresent)
      && forall id :: id in ResultIds(stale) <==> id in OpIds(planned) && id !in OpIds(current)
  {
    hide StaleResults, Prints, Fingerprint;
    if planned == [] {
      NothingStale(current);
    } else {
      var n := |planned| - 1;
      var before, op := planned[..n], planned[n];
      KeyedPrefix(planned, n);
      StaleMeaning(before, current);
      PrintsIds(current, op.id);
      StaleLast(planned, current);
      assert OpIds(planned) == OpIds(before) + [op.id];
      assert op.id !in OpIds(before);
      hide Keyed;
    }
  }

  lemma NothingStale(current: seq<Op>)
    ensures StaleResults([], current) == []
  {
  }

  lemma KeyedPrefix(ops: seq<Op>, n: nat)
    requires Keyed(ops) && n <= |ops|
    ensures Keyed(ops[..n])
  {
    assert OpIds(ops[..n]) == OpIds(ops)[..n];
  }

  lemma PrintsIds(ops: seq<Op>, id: string)
    requires Keyed(ops)
    ensures Prints(ops, id) <==> id in OpIds(ops)
  {
    if id in OpIds(ops) {
      var k :| 0 <= k < |ops| && OpIds(ops)[k] == id;
      assert ops[k] in ops;
    }
    if Prints(ops, id) {
      var op :| op in ops && Fingerprint(op) == id;
      var k :| 0 <= k < |ops| && ops[k] == op;
      assert OpIds(ops)[k] == id;
    }
  }

  lemma {:induction false} ReviewedMeaning(current: seq<Op>, planned: seq<Op>)
    requires Keyed(planned) && Keyed(current)
    ensures var todo := Reviewed(current, planned);
      && Keyed(todo) && (forall op <- todo :: op in current)
      && forall id :: id in OpIds(todo) <==> id in OpIds(planned) && id in OpIds(current)
  {
    if current != [] {
      var n := |current| - 1;
      var before, op := current[..n], current[n];
      KeyedPrefix(current, n);
      ReviewedMeaning(before, planned);
      PrintsIds(planned, op.id);
      assert OpIds(current) == OpIds(before) + [op.id];
      assert op.id !in OpIds(before);
      var todo, rest := Reviewed(current, planned), Reviewed(before, planned);
      hide Reviewed;
      assert op in current && op.id == Fingerprint(op);
      assert todo == rest + if Prints(planned, op.id) then [op] else [];
      assert OpIds(todo) == OpIds(rest) + if Prints(planned, op.id) then [op.id] else [];
    }
  }

  lemma {:induction false} DistinctMultiset(xs: seq<string>)
    requires Distinct(xs)
    ensures forall x :: multiset(xs)[x] == if x in xs then 1 else 0
  {
    if xs != [] {
      var n := |xs| - 1;
      DistinctMultiset(xs[..n]);
      assert xs == xs[..n] + [xs[n]];
    }
  }

  lemma DistinctSameMembers(xs: seq<string>, ys: seq<string>)
    requires Distinct(xs) && Distinct(ys) && forall x :: x in xs <==> x in ys
    ensures multiset(xs) == multiset(ys) && |xs| == |ys|
  {
    DistinctMultiset(xs);
    DistinctMultiset(ys);
    assert |xs| == |multiset(xs)| && |ys| == |multiset(ys)|;
  }

  lemma StaleThenRest(stale: seq<OpResult>, out: seq<OpResult>, planned: seq<string>, current: seq<string>,
                      todo: seq<string>)
    requires Distinct(ResultIds(stale)) && Distinct(todo) && Distinct(planned) && ResultIds(out) == todo
    requires forall id :: id in ResultIds(stale) <==> id in planned && id !in current
    requires forall id :: id in todo <==> id in planned && id in current
    requires (forall r <- stale :: r.status == AlreadyPresent) && forall r <- out :: r.status != AlreadyPresent
    ensures var results := stale + out;
      && |results| == |planned| && Distinct(ResultIds(results)) && multiset(ResultIds(results)) == multiset(planned)
      && forall r <- results :: r.status == AlreadyPresent <==> r.opId !in current
  {
    var results := stale + out;
    assert ResultIds(results) == ResultIds(stale) + todo;
    forall r <- results ensures r.status == AlreadyPresent <==> r.opId !in current {
      if r in stale {
        var k :| 0 <= k < |stale| && stale[k] == r;
        assert ResultIds(stale)[k] == r.opId;
      } else {
        var k :| 0 <= k < |out| && out[k] == r;
        assert ResultIds(out)[k] == r.opId;
      }
    }
    DistinctSameMembers(ResultIds(results), planned);
  }

  /** Every run reports exactly one result per planned operation: `already_present` for the stale ones and for
      them alone. */
  lemma {:induction false} OneResultPerOperation(s: Setting, planned: seq<Op>, current: seq<Op>, clock: int)
    requires Keyed(planned) && Keyed(current)
    ensures var results := Execute(s, planned, current, clock).results;
      && |results| == |planned|
      && Distinct(ResultIds(results)) && multiset(ResultIds(results)) == multiset(OpIds(planned))
      && forall r <- results :: r.status == AlreadyPresent <==> r.opId !in OpIds(current)
  {
    var stale, todo := StaleResults(planned, current), Reviewed(current, planned);
    var results := Execute(s, planned, current, clock).results;
    StaleMeaning(planned, current);
    ReviewedMeaning(current, planned);
    RunAppends(s, Start(planned, current, clock), todo);
    var out := Outcomes(s, Start(planned, current, clock), todo);
    hide Run;
    hide Outcomes;
    hide StaleResults;
    hide Reviewed;
    assert results == stale + out;
    StaleThenRest(stale, out, OpIds(planned), OpIds(current), OpIds(todo));
  }

  // ----- what is posted --------------------------------------------------

  /** `at[k]` is the position of the k-th posted operation: the posts are a subsequence of the reviewed
      operations, each confirmed, each answered by the server as recorded. */
  ghost predicate PostsFollow(s: Setting, todo: seq<Op>, posts: seq<Post>, at: seq<nat>) {
    && |at| == |posts| && Increasing(at) && Below(at, |todo|)
    && forall k :: 0 <= k < |posts| ==> posts[k].op == todo[at[k]] && s.world.confirm(at[k]) == Approves
                                        && posts[k].response == s.world.respond(at[k])
  }

  lemma StepPosts(s: Setting, x: Exec, op: Op, i: nat)
    ensures var y := Step(s, x, op, i);
      y.posts == x.posts
      || (exists p :: y.posts == x.posts + [p] && p.op == op && s.world.confirm(i) == Approves
                      && p.response == s.world.respond(i))
  {
    hide ResolveRefs;
    hide FindResult;
    hide ResponseId;
    hide StartTime;
    hide DescriptionUrl;
    var y := Step(s, x, op, i);
    if y.posts != x.posts {
      assert y.posts == x.posts + [y.posts[|x.posts|]];
    }
  }

  lemma {:induction false} PostsAreReviewed(s: Setting, start: Exec, todo: seq<Op>) returns (at: seq<nat>)
    requires start.posts == []
    ensures PostsFollow(s, todo, Run(s, start, todo).posts, at)
  {
    hide Step;
    if todo == [] {
      return [];
    }
    var n := |todo| - 1;
    at := PostsAreReviewed(s, start, todo[..n]);
    var x := Run(s, start, todo[..n]);
    StepPosts(s, x, todo[n], n);
    var y := Run(s, start, todo);
    if y.posts != x.posts {
      at := at + [n];
    }
  }

  // ----- failures halt the run -------------------------------------------

  lemma StepHalts(s: Setting, x: Exec, op: Op, i: nat)
    ensures var y := Step(s, x, op, i); var last := y.results[|y.results| - 1].status;
      && |y.results| == |x.results| + 1
      && (y.halted <==> x.halted || last == Failed)
      && (x.halted ==> last == NotRun && y.posts == x.posts)
  {
    hide ResolveRefs;
    hide FindResult;
    hide ResponseId;
    hide StartTime;
    hide DescriptionUrl;
  }

  ghost predicate FailsLast(rs: seq<OpResult>) {
    forall j, k :: 0 <= j < k < |rs| && rs[j].status == Failed ==> rs[k].status == NotRun
  }

  lemma FailsLastPush(rs: seq<OpResult>, last: OpResult)
    requires FailsLast(rs) && ((exists r <- rs :: r.status == Failed) ==> last.status == NotRun)
    ensures FailsLast(rs + [last])
    ensures (exists r <- rs + [last] :: r.status == Failed)
      <==> last.status == Failed || exists r <- rs :: r.status == Failed
  {
    var all := rs + [last];
    forall j, k | 0 <= j < k < |all| && all[j].status == Failed ensures all[k].status == NotRun {
      assert all[j] == rs[j] && rs[j] in rs;
    }
    assert last in all && forall r <- rs :: r in all;
  }

  /** At most one operation fails, and everything after it is not run. */
  lemma {:induction false} FailureHalts(s: Setting, start: Exec, todo: seq<Op>)
    requires !start.halted
    ensures FailsLast(Outcomes(s, start, todo))
    ensures Run(s, start, todo).halted <==> exists r <- Outcomes(s, start, todo) :: r.status == Failed
  {
    hide Step;
    if todo != [] {
      var n := |todo| - 1;
      FailureHalts(s, start, todo[..n]);
      RunAppends(s, start, todo);
      StepHalts(s, Run(s, start, todo[..n]), todo[n], n);
      var results := Run(s, start, todo).results;
      FailsLastPush(Outcomes(s, start, todo[..n]), results[|results| - 1]);
    }
  }

  // ----- spacing ---------------------------------------------------------

  ghost predicate Spaced(minInterval: int, posts: seq<Post>) {
    forall k :: 0 < k < |posts| ==> posts[k].startedAt >= posts[k - 1].endedAt + minInterval
  }

  ghost predicate Timed(s: Setting, x: Exec) {
    && x.clock > 0 && 0 <= x.lastPost <= x.clock
    && Spaced(s.minInterval, x.posts)
    && (x.posts != [] ==> x.lastPost > 0 && x.lastPost >= x.posts[|x.posts| - 1].endedAt)
    && forall k :: 0 <= k < |x.posts| ==> x.posts[k].endedAt >= x.posts[k].startedAt > 0
  }

  lemma {:induction false} StepTimed(s: Setting, x: Exec, op: Op, i: nat)
    requires Timed(s, x)
    ensures Timed(s, Step(s, x, op, i))
  {
    hide ResolveRefs;
    hide FindResult;
    hide ResponseId;
    hide DescriptionUrl;
  }

  /** With a positive clock each POST starts at least `minInterval` after the one before it ended. */
  lemma {:induction false} PostsSpaced(s: Setting, start: Exec, todo: seq<Op>)
    requires start.posts == [] && start.lastPost == 0 && start.clock > 0
    ensures Timed(s, Run(s, start, todo))
  {
    hide Step;
    if todo != [] {
      var n := |todo| - 1;
      PostsSpaced(s, start, todo[..n]);
      StepTimed(s, Run(s, start, todo[..n]), todo[n], n);
    }
  }

  // ----- dependencies and references -------------------------------------

  /** The post that created the description an operation id stands for. */
  ghost predicate Creates(p: Post, id: string, url: string, host: string) {
    && p.op.id == id && p.op.opType == CreateSource && p.response.Accepted?
    && ResponseId(p.response.location, p.response.entityId) != ""
    && url == DescriptionUrl(host, ResponseId(p.response.location, p.response.entityId))
  }

  ghost predicate CreatedByPosts(host: string, x: Exec) {
    forall id <- x.created :: exists j :: 0 <= j < |x.posts| && Creates(x.posts[j], id, x.created[id], host)
  }

  /** A body that refers to the dependency was posted with the URL in its place. */
  ghost predicate CarriesUrl(op: Op, p: Post, url: string)
    requires op.dependsOn.Some?
  {
    op.body.AttachBody? && op.body.description == OP_REF + op.dependsOn.value ==>
      p.body.AttachBody? && p.body.description == url
  }

  /** An operation with a dependency was posted after that create was posted and returned an id, and if its
      body refers to the dependency it carries that id's URL. */
  ghost predicate DependencyPosted(host: string, posts: seq<Post>, k: nat)
    requires k < |posts|
  {
    var op := posts[k].op;
    Truthy(op.dependsOn) ==>
      exists j, url :: 0 <= j < k && Creates(posts[j], op.dependsOn.value, url, host) && CarriesUrl(op, posts[k], url)
  }

  ghost predicate Linked(host: string, x: Exec) {
    CreatedByPosts(host, x) && forall k :: 0 <= k < |x.posts| ==> DependencyPosted(host, x.posts, k)
  }

  lemma AttachReference(op: Op, created: map<string, string>, host: string)
    requires Truthy(op.dependsOn) && op.dependsOn.value in created
    requires op.body.AttachBody? && op.body.description == OP_REF + op.dependsOn.value
    ensures var body := ResolveRefs(op.body, created, host, op.existingId);
      body.Some? ==> body.value.AttachBody? && body.value.description == created[op.dependsOn.value]
  {
    assert op.body.description[|OP_REF|..] == op.dependsOn.value;
    assert op.body.description[..|OP_REF|] == OP_REF;
  }

  /** The effect of one post on the log and on the created URLs. */
  ghost predicate Extends(host: string, x: Exec, y: Exec, op: Op, p: Post) {
    && y.posts == x.posts + [p] && p.op == op
    && (Truthy(op.dependsOn) ==> op.dependsOn.value in x.created && CarriesUrl(op, p, x.created[op.dependsOn.value]))
    && (y.created == x.created
        || exists url :: y.created == x.created[op.id := url] && Creates(p, op.id, url, host))
  }

  lemma StepExtends(s: Setting, x: Exec, op: Op, i: nat)
    ensures var y := Step(s, x, op, i);
      (y.posts == x.posts && y.created == x.created) || exists p :: Extends(s.host, x, y, op, p)
  {
    var y := Step(s, x, op, i);
    if op.body.AttachBody? && Truthy(op.dependsOn) && op.dependsOn.value in x.created
       && op.body.description == OP_REF + op.dependsOn.value {
      AttachReference(op, x.created, s.host);
    }
    hide ResolveRefs;
    hide FindResult;
    hide ResponseId;
    hide StartTime;
    hide DescriptionUrl;
    if y.posts != x.posts {
      var p := y.posts[|x.posts|];
      assert y.posts == x.posts + [p];
      if y.created != x.created {
        var url := y.created[op.id];
        assert y.created == x.created[op.id := url] && Creates(p, op.id, url, s.host);
      }
      assert Extends(s.host, x, y, op, p);
    }
  }

  lemma ExtendLinked(host: string, x: Exec, y: Exec, op: Op, p: Post)
    requires Linked(host, x) && Extends(host, x, y, op, p)
    ensures Linked(host, y)
  {
    hide Creates;
    var n := |x.posts|;
    forall k | 0 <= k < |y.posts| ensures DependencyPosted(host, y.posts, k) {
      var dep := y.posts[k].op.dependsOn;
      if k < n && Truthy(dep) {
        assert DependencyPosted(host, x.posts, k);
        var j, url :| 0 <= j < k && Creates(x.posts[j], dep.value, url, host)
          && CarriesUrl(x.posts[k].op, x.posts[k], url);
        assert Creates(y.posts[j], dep.value, url, host);
      } else if Truthy(dep) {
        var j :| 0 <= j < n && Creates(x.posts[j], dep.value, x.created[dep.value], host);
        assert Creates(y.posts[j], dep.value, x.created[dep.value], host);
      }
    }
    forall id <- y.created ensures exists j :: 0 <= j < |y.posts| && Creates(y.posts[j], id, y.created[id], host) {
      if id in x.created && y.created[id] == x.created[id] {
        var j :| 0 <= j < n && Creates(x.posts[j], id, x.created[id], host);
        assert y.posts[j] == x.posts[j];
      } else {
        assert Creates(y.posts[n], id, y.created[id], host);
      }
    }
  }

  lemma {:induction false} DependentsFollowCreates(s: Setting, start: Exec, todo: seq<Op>)
    requires start.posts == [] && start.created == map[]
    ensures Linked(s.host, Run(s, start, todo))
  {
    hide Step;
    if todo != [] {
      var n := |todo| - 1;
      DependentsFollowCreates(s, start, todo[..n]);
      var x, y := Run(s, start, todo[..n]), Run(s, start, todo);
      StepExtends(s, x, todo[n], n);
      if p :| Extends(s.host, x, y, todo[n], p) {
        ExtendLinked(s.host, x, y, todo[n], p);
      }
    }
  }

  // ----- references always resolve ---------------------------------------

  predicate Plain(t: string) {
    !StartsWith(t, OP_REF) && !StartsWith(t, SD_REF)
  }

  predicate PlainOptional(t: Option<string>) {
    t.Some? ==> Plain(t.value)
  }

  /** No text of a finding looks like a reference. */
  predicate PlainFinding(f: Finding) {
    Plain(f.sourceTitle) && Plain(f.value) && PlainOptional(f.date) && PlainOptional(f.place)
    && PlainOptional(f.sourceUrl)
  }

  /** The only reference in the body is the attachment's own. */
  ghost predicate PlainOp(op: Op) {
    match op.body
    case SourceBody(about, title, note) => PlainOptional(about) && Plain(title) && Plain(note)
    case AttachBody(description, tags) =>
      && (forall t <- tags :: Plain(t))
      && if op.dependsOn.Some? then op.dependsOn.value != "" && description == OP_REF + op.dependsOn.value
         else op.existingId.Some? && description == SD_REF + op.existingId.value
    case NoteBody(id, subject, text) => Plain(id) && Plain(subject) && Plain(text)
    case NameBody(id, fullText) => Plain(id) && Plain(fullText)
    case FactBody(id, factType, date, place) =>
      Plain(id) && Plain(factType) && PlainOptional(date) && PlainOptional(place)
  }

  /** What a plain operation posts: its body, with the attachment's reference turned into a URL. */
  function PostedBody(op: Op, created: map<string, string>, host: string): Body {
    if !op.body.AttachBody? then op.body
    else if op.dependsOn.Some? then
      op.body.(description := if op.dependsOn.value in created then created[op.dependsOn.value] else "")
    else op.body.(description := DescriptionUrl(host, op.existingId.GetOr("")))
  }

  lemma {:induction false} PlainTags(tags: seq<string>, created: map<string, string>, host: string,
                                     existing: Option<string>)
    requires forall t <- tags :: Plain(t)
    ensures ResolveAll(tags, created, host, existing) == Some(tags)
  {
    if tags != [] {
      assert tags[0] in tags && Plain(tags[0]);
      PlainTags(tags[1..], created, host, existing);
      assert tags == [tags[0]] + tags[1..];
    }
  }

  lemma PlainOpsResolve(op: Op, created: map<string, string>, host: string)
    requires PlainOp(op) && forall id <- created :: created[id] != ""
    requires op.dependsOn.Some? && op.body.AttachBody? ==> op.dependsOn.value in created
    ensures ResolveRefs(op.body, created, host, op.existingId) == Some(PostedBody(op, created, host))
  {
    if op.body.AttachBody? {
      PlainTags(op.body.tags, created, host, op.existingId);
      var d := op.body.description;
      if op.dependsOn.Some? {
        assert d[..|OP_REF|] == OP_REF && d[|OP_REF|..] == op.dependsOn.value;
      } else {
        assert d[..|SD_REF|] == SD_REF && d[|SD_REF|..] == op.existingId.value;
        assert d[1] == 's';
      }
    }
  }

  ghost predicate UrlsOnly(created: map<string, string>) {
    forall id <- created :: created[id] != ""
  }

  lemma {:induction false} StepResolves(s: Setting, x: Exec, op: Op, i: nat)
    requires PlainOp(op) && UrlsOnly(x.created)
    ensures var y := Step(s, x, op, i);
      && UrlsOnly(y.created)
      && (y.results[|y.results| - 1].status == Failed ==>
            s.world.confirm(i) == Throws || s.world.respond(i).Rejected?)
      && (y.posts != x.posts ==>
            && y.posts[|y.posts| - 1].body == PostedBody(op, x.created, s.host)
            && (op.dependsOn.Some? && op.body.AttachBody? ==> op.dependsOn.value in x.created))
  {
    if op.dependsOn.Some? && op.body.AttachBody? && op.dependsOn.value !in x.created {
    } else {
      PlainOpsResolve(op, x.created, s.host);
    }
    hide ResolveRefs;
    hide PostedBody;
    hide FindResult;
    hide ResponseId;
    hide StartTime;
  }

  /** `resolveRefs` never throws on plain operations: a run fails only at a broken confirmation or POST. */
  lemma {:induction false} ReferencesResolve(s: Setting, start: Exec, todo: seq<Op>)
    requires UrlsOnly(start.created) && forall op <- todo :: PlainOp(op)
    ensures UrlsOnly(Run(s, start, todo).created) && |Outcomes(s, start, todo)| == |todo|
    ensures forall k :: 0 <= k < |todo| && Outcomes(s, start, todo)[k].status == Failed ==>
      s.world.confirm(k) == Throws || s.world.respond(k).Rejected?
  {
    hide *;
    OutcomesCount(s, start, todo);
    if todo == [] {
      RunNothing(s, start);
    } else {
      var n := |todo| - 1;
      RunAppends(s, start, todo);
      RunLast(s, start, todo);
      ReferencesResolve(s, start, todo[..n]);
      StepResolves(s, Run(s, start, todo[..n]), todo[n], n);
    }
  }

  lemma RunNothing(s: Setting, start: Exec)
    ensures Run(s, start, []) == start
  {
  }

  lemma RunLast(s: Setting, start: Exec, todo: seq<Op>)
    requires todo != []
    ensures Run(s, start, todo) == Step(s, Run(s, start, todo[..|todo| - 1]), todo[|todo| - 1], |todo| - 1)
  {
    hide Step;
  }

  /** What was posted: the operation's own body, an attachment's description replaced by a URL. */
  ghost predicate PlainBodies(host: string, posts: seq<Post>) {
    forall k :: 0 <= k < |posts| ==>
      var p := posts[k];
      if p.op.body.AttachBody? then
        p.body.AttachBody?
        && (p.op.dependsOn.None? ==> p.body.description == DescriptionUrl(host, p.op.existingId.GetOr("")))
      else p.body == p.op.body
  }

  lemma {:induction false} BodiesPosted(s: Setting, start: Exec, todo: seq<Op>)
    requires UrlsOnly(start.created) && start.posts == [] && forall op <- todo :: PlainOp(op)
    ensures PlainBodies(s.host, Run(s, start, todo).posts)
  {
    hide Step;
    hide PlainOp;
    hide DescriptionUrl;
    if todo != [] {
      var n := |todo| - 1;
      var x, y := Run(s, start, todo[..n]), Run(s, start, todo);
      BodiesPosted(s, start, todo[..n]);
      ReferencesResolve(s, start, todo[..n]);
      assert todo[n] in todo;
      StepResolves(s, x, todo[n], n);
      StepPosts(s, x, todo[n], n);
    }
  }

  // ----- plans over plain findings are plain -----------------------------

  lemma PlainStart(t: string)
    requires t != "" && t[0] != '@'
    ensures Plain(t)
  {
    assert OP_REF[0] == SD_REF[0] == '@';
    if |t| >= |OP_REF| {
      assert t[..|OP_REF|][0] == t[0];
    }
  }

  lemma {:induction false} FindingTextsPlain(c: Ctx, f: Finding)
    ensures Plain(NoteText(f, FactStatus(c.rules, c.person, f)))
    ensures Plain("TRM research: " + KindLabel(f.kind))
    ensures FactTypeOf(f.kind).Some? ==> Plain(FactTypeOf(f.kind).value)
  {
    hide FactStatus;
    var kind := KindLabel(f.kind);
    assert kind != "" && kind[0] != '@';
    PlainStart(NoteText(f, FactStatus(c.rules, c.person, f)));
    PlainStart("TRM research: " + kind);
    if FactTypeOf(f.kind).Some? {
      PlainStart(FactTypeOf(f.kind).value);
    }
  }

  lemma {:induction false} TagsPlain(c: Ctx, fs: seq<Finding>)
    ensures forall t <- Tags(c, fs) :: Plain(t)
  {
    if fs != [] {
      TagsPlain(c, fs[..|fs| - 1]);
      FindingTextsPlain(c, fs[|fs| - 1]);
      hide FactStatus;
      hide Plain;
    }
  }

  lemma {:induction false} SourceOpsPlain(c: Ctx, g: Group)
    requires g.members != [] && PlainFinding(g.members[0])
    ensures PlainOp(CreateOp(c, g)) && PlainOp(AttachOp(c, g))
  {
    TagsPlain(c, g.members);
    var note := SourceMarker(g.members[0]) + " " + JoinedNotes(g.members);
    assert note[0] == '[';
    PlainStart(note);
    assert OpKey(CreateSource, Ids(g.members))[0] == 'c';
    hide Plain;
    hide Tags;
  }

  lemma {:induction false} FindingOpsPlain(c: Ctx, f: Finding)
    requires Plain(c.pid) && PlainFinding(f)
    ensures PlainOp(NoteOp(c, f)) && (ConclusionOp(c, f).Some? ==> PlainOp(ConclusionOp(c, f).value))
  {
    FindingTextsPlain(c, f);
    hide Plain;
    hide NoteText;
    hide FactStatus;
  }

  /** Every operation of a plan over plain findings is plain. */
  lemma PlansArePlain(c: Ctx, fs: seq<Finding>)
    requires Plain(c.pid) && forall f <- fs :: PlainFinding(f)
    ensures forall op <- Operations(c, fs) :: PlainOp(op)
  {
    GroupsInhabited(fs);
    var s, p := PlanSources(c, GroupsOf(fs)), PlanFindings(c, fs);
    SourceOps(c, GroupsOf(fs));
    NoteOps(c, fs);
    FactOps(c, fs);
    assert Operations(c, fs) == s.creates + s.attaches + p.notes + p.facts;
    forall g <- GroupsOf(fs) ensures PlainOp(CreateOp(c, g)) && PlainOp(AttachOp(c, g)) {
      GroupMembersIn(fs, g);
      assert g.members[0] in g.members;
      SourceOpsPlain(c, g);
    }
    forall f <- fs ensures PlainOp(NoteOp(c, f)) && (ConclusionOp(c, f).Some? ==> PlainOp(ConclusionOp(c, f).value)) {
      FindingOpsPlain(c, f);
    }
    hide PlanSources;
    hide PlanFindings;
    hide PlainOp;
    hide ConclusionOp;
    hide CreateOp;
    hide AttachOp;
    hide NoteOp;
    hide NeedsCreate;
    hide NeedsAttach;
    hide Noted;
    hide Concludable;
    hide GroupsOf;
    forall op <- Operations(c, fs) ensures PlainOp(op) {
      assert op in s.creates || op in s.attaches || op in p.notes || op in p.facts;
    }
  }

  // ----- the theorem -----------------------------------------------------

  /** One `applyPlan` run, for any reviewed operations, any current plan, any answers of the person who confirms, and
      any server. */
  lemma {:induction false} SafeRun(s: Setting, planned: seq<Op>, current: seq<Op>, clock: int) returns (at: seq<nat>)
    requires Keyed(planned) && Keyed(current) && (forall op <- current :: PlainOp(op)) && clock > 0
    ensures var x, todo := Execute(s, planned, current, clock), Reviewed(current, planned);
      && PostsFollow(s, todo, x.posts, at)
      && (forall op <- todo :: op in current && op.id in OpIds(planned))
      && (forall i, j :: 0 <= i < j < |x.posts| ==> x.posts[i].op.id != x.posts[j].op.id)
      && (forall k :: 0 <= k < |x.posts| ==> DependencyPosted(s.host, x.posts, k))
      && Spaced(s.minInterval, x.posts)
      && FailsLast(x.results)
      && |Outcomes(s, Start(planned, current, clock), todo)| == |todo|
      && forall k :: 0 <= k < |todo| && Outcomes(s, Start(planned, current, clock), todo)[k].status == Failed ==>
           s.world.confirm(k) == Throws || s.world.respond(k).Rejected?
  {
    var start, todo := Start(planned, current, clock), Reviewed(current, planned);
    var x := Execute(s, planned, current, clock);
    StaleMeaning(planned, current);
    ReviewedMeaning(current, planned);
    RunAppends(s, start, todo);
    at := PostsAreReviewed(s, start, todo);
    DependentsFollowCreates(s, start, todo);
    PostsSpaced(s, start, todo);
    FailureHalts(s, start, todo);
    ReferencesResolve(s, start, todo);
    PostedOnce(s, todo, x.posts, at);
    IdsOf(todo);
    var stale, out := start.results, Outcomes(s, start, todo);
    forall k | 0 <= k < |stale| ensures stale[k].status == AlreadyPresent {
      assert stale[k] in stale;
    }
    StaleNeverFail(stale, out);
    hide *;
    assert x.results == stale + out;
  }

  lemma StaleNeverFail(stale: seq<OpResult>, out: seq<OpResult>)
    requires (forall k :: 0 <= k < |stale| ==> stale[k].status == AlreadyPresent) && FailsLast(out)
    ensures FailsLast(stale + out)
  {
    var rs := stale + out;
    forall j, k | 0 <= j < k < |rs| && rs[j].status == Failed ensures rs[k].status == NotRun {
      assert |stale| <= j && rs[j] == out[j - |stale|] && rs[k] == out[k - |stale|];
    }
  }

  lemma PostedOnce(s: Setting, todo: seq<Op>, posts: seq<Post>, at: seq<nat>)
    requires PostsFollow(s, todo, posts, at) && DistinctOps(todo)
    ensures forall i, j :: 0 <= i < j < |posts| ==> posts[i].op.id != posts[j].op.id
  {
    forall i, j | 0 <= i < j < |posts| ensures posts[i].op.id != posts[j].op.id {
      assert OpIds(todo)[at[i]] != OpIds(todo)[at[j]];
    }
  }

  lemma IdsOf(ops: seq<Op>)
    ensures forall op <- ops :: op.id in OpIds(ops)
  {
    forall op <- ops ensures op.id in OpIds(ops) {
      var k :| 0 <= k < |ops| && ops[k] == op;
      assert OpIds(ops)[k] == op.id;
    }
  }
}
