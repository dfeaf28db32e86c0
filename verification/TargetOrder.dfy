/** `RollbackTargetDetector.resolveDependencies` (rollback-executor.ts): a topological sort of rollback targets that
    copes with external, repeated and cyclic dependencies. */
module TargetOrder {
  import opened Strings

  datatype TargetKind = Database | CacheEntry | Config | StateKey | FeatureFlag

  /** `version` is `parseInt(version_to_revert)`, None for NaN. */
  datatype Target = Target(id: string, kind: TargetKind, resource: string, version: Option<int>, deps: seq<string>)

  type Edge = (string, string)

  // ----- the dependency graph --------------------------------------------

  /** The edges of the first `j` listed dependencies of a target, one from dependency to target each. */
  function WithEdges(es: seq<Edge>, t: Target, j: nat): seq<Edge>
    requires j <= |t.deps|
  {
    if j == 0 then es else WithEdges(es, t, j - 1) + [(t.deps[j - 1], t.id)]
  }

  function Edges(ts: seq<Target>): seq<Edge> {
    if ts == [] then []
    else
      var last := ts[|ts| - 1];
      WithEdges(Edges(ts[..|ts| - 1]), last, |last.deps|)
  }

  function WithNodes(ns: set<string>, t: Target, j: nat): set<string>
    requires j <= |t.deps|
  {
    if j == 0 then ns + {t.id} else WithNodes(ns, t, j - 1) + {t.deps[j - 1]}
  }

  function Nodes(ts: seq<Target>): set<string> {
    if ts == [] then {}
    else
      var last := ts[|ts| - 1];
      WithNodes(Nodes(ts[..|ts| - 1]), last, |last.deps|)
  }

  function Push(ks: seq<string>, n: string): seq<string> {
    if n in ks then ks else ks + [n]
  }

  function WithMentions(ks: seq<string>, t: Target, j: nat): seq<string>
    requires j <= |t.deps|
  {
    if j == 0 then Push(ks, t.id) else Push(WithMentions(ks, t, j - 1), t.deps[j - 1])
  }

  /** The nodes in the order in which they are first mentioned, a target before its dependencies. */
  function Mentioned(ts: seq<Target>): seq<string> {
    if ts == [] then []
    else
      var last := ts[|ts| - 1];
      WithMentions(Mentioned(ts[..|ts| - 1]), last, |last.deps|)
  }

  ghost predicate DependsOn(ts: seq<Target>, n: string, d: string) {
    exists t <- ts :: t.id == n && d in t.deps
  }

  /** A node of the graph: a target's id or a dependency, be it a target's or external. */
  ghost predicate IsNode(ts: seq<Target>, n: string) {
    exists t <- ts :: t.id == n || n in t.deps
  }

  lemma {:induction false} WithEdgesMeaning(es: seq<Edge>, t: Target, j: nat)
    requires j <= |t.deps|
    ensures forall d, n :: (d, n) in WithEdges(es, t, j) <==> (d, n) in es || (n == t.id && d in t.deps[..j])
  {
    if j > 0 {
      WithEdgesMeaning(es, t, j - 1);
      assert t.deps[..j] == t.deps[..j - 1] + [t.deps[j - 1]];
    }
  }

  lemma {:induction false} EdgesMeanDependencies(ts: seq<Target>)
    ensures forall d, n :: (d, n) in Edges(ts) <==> DependsOn(ts, n, d)
  {
    if ts != [] {
      var last := ts[|ts| - 1];
      EdgesMeanDependencies(ts[..|ts| - 1]);
      WithEdgesMeaning(Edges(ts[..|ts| - 1]), last, |last.deps|);
      assert last.deps[..|last.deps|] == last.deps && ts == ts[..|ts| - 1] + [last];
      forall d, n ensures (d, n) in Edges(ts) <==> DependsOn(ts, n, d) {
        assert DependsOn(ts, n, d) <==> DependsOn(ts[..|ts| - 1], n, d) || (last.id == n && d in last.deps);
      }
    }
  }

  lemma {:induction false} WithNodesMeaning(ns: set<string>, t: Target, j: nat)
    requires j <= |t.deps|
    ensures forall n :: n in WithNodes(ns, t, j) <==> n in ns || n == t.id || n in t.deps[..j]
  {
    if j > 0 {
      WithNodesMeaning(ns, t, j - 1);
      assert t.deps[..j] == t.deps[..j - 1] + [t.deps[j - 1]];
    }
  }

  lemma {:induction false} NodesMeaning(ts: seq<Target>)
    ensures forall n :: n in Nodes(ts) <==> IsNode(ts, n)
  {
    if ts != [] {
      var last := ts[|ts| - 1];
      NodesMeaning(ts[..|ts| - 1]);
      WithNodesMeaning(Nodes(ts[..|ts| - 1]), last, |last.deps|);
      assert last.deps[..|last.deps|] == last.deps && ts == ts[..|ts| - 1] + [last];
      forall n ensures n in Nodes(ts) <==> IsNode(ts, n) {
        assert IsNode(ts, n) <==> IsNode(ts[..|ts| - 1], n) || n == last.id || n in last.deps;
      }
    }
  }

  function Successors(es: seq<Edge>, d: string): seq<string> {
    if es == [] then []
    else Successors(es[..|es| - 1], d) + (if es[|es| - 1].0 == d then [es[|es| - 1].1] else [])
  }

  /** The number of edges into `n` from nodes outside `done`. */
  function Open(es: seq<Edge>, done: set<string>, n: string): nat {
    if es == [] then 0
    else
      var e := es[|es| - 1];
      Open(es[..|es| - 1], done, n) + (if e.1 == n && e.0 !in done then 1 else 0)
  }

  lemma {:induction false} OpenNone(es: seq<Edge>, done: set<string>, n: string)
    ensures Open(es, done, n) == 0 <==> forall e <- es :: e.1 == n ==> e.0 in done
  {
    if es != [] {
      OpenNone(es[..|es| - 1], done, n);
      assert es == es[..|es| - 1] + [es[|es| - 1]];
    }
  }

  /** Finishing a node closes exactly its outgoing edges. */
  lemma {:induction false} OpenFinish(es: seq<Edge>, done: set<string>, d: string, n: string)
    requires d !in done
    ensures Open(es, done, n) == Open(es, done + {d}, n) + multiset(Successors(es, d))[n]
  {
    if es != [] {
      OpenFinish(es[..|es| - 1], done, d, n);
    }
  }

  lemma OpenPush(es: seq<Edge>, e: Edge, n: string)
    ensures Open(es + [e], {}, n) == Open(es, {}, n) + if e.1 == n then 1 else 0
    ensures Successors(es + [e], n) == Successors(es, n) + if e.0 == n then [e.1] else []
  {
    assert (es + [e])[..|es|] == es;
  }

  lemma {:induction false} SuccessorsAreEdges(es: seq<Edge>, d: string)
    ensures forall n <- Successors(es, d) :: (d, n) in es
  {
    if es != [] {
      SuccessorsAreEdges(es[..|es| - 1], d);
    }
  }

  // ----- paths and cycles ------------------------------------------------

  ghost predicate IsPath(ts: seq<Target>, p: seq<string>) {
    forall i :: 0 <= i < |p| - 1 ==> DependsOn(ts, p[i], p[i + 1])
  }

  /** A path of dependencies from `n` meets some node twice. */
  ghost predicate ReachesCycle(ts: seq<Target>, n: string) {
    exists p, i, j :: |p| > 0 && p[0] == n && IsPath(ts, p) && 0 <= i < j < |p| && p[i] == p[j]
  }

  /** Every dependency of a listed node is listed before it. */
  ghost predicate DependenciesFirst(ts: seq<Target>, order: seq<string>) {
    forall i, d :: 0 <= i < |order| && DependsOn(ts, order[i], d) ==> d in order[..i]
  }

  /** A node with all its dependencies listed is listed. */
  ghost predicate Exhausted(ts: seq<Target>, order: seq<string>) {
    forall n :: IsNode(ts, n) && n !in order ==> exists d :: DependsOn(ts, n, d) && d !in order
  }

  lemma {:induction false} PathsDescend(ts: seq<Target>, order: seq<string>, p: seq<string>, k: nat)
    returns (at: seq<nat>)
    requires DependenciesFirst(ts, order) && IsPath(ts, p) && 0 < k <= |p| && p[0] in order
    ensures |at| == k && forall i :: 0 <= i < k ==> at[i] < |order| && order[at[i]] == p[i]
    ensures forall i, j :: 0 <= i < j < k ==> at[j] < at[i]
  {
    if k == 1 {
      var a: nat :| a < |order| && order[a] == p[0];
      at := [a];
    } else {
      hide *;
      at := PathsDescend(ts, order, p, k - 1);
      var a := PathStep(ts, order, p, k - 1, at[k - 2]);
      at := at + [a];
    }
  }

  lemma PathStep(ts: seq<Target>, order: seq<string>, p: seq<string>, k: nat, last: nat) returns (a: nat)
    requires DependenciesFirst(ts, order) && IsPath(ts, p) && 0 < k < |p| && last < |order| && order[last] == p[k - 1]
    ensures a < last && order[a] == p[k]
  {
    assert DependsOn(ts, p[k - 1], p[k]);
    assert p[k] in order[..last];
    a :| a < last && order[..last][a] == p[k];
  }

  /** Nothing listed reaches a cycle. */
  lemma ListedIsAcyclic(ts: seq<Target>, order: seq<string>, n: string)
    requires DependenciesFirst(ts, order) && Distinct(order) && n in order
    ensures !ReachesCycle(ts, n)
  {
    forall p, i, j | |p| > 0 && p[0] == n && IsPath(ts, p) && 0 <= i < j < |p| ensures p[i] != p[j] {
      var at := PathsDescend(ts, order, p, |p|);
      assert order[at[i]] != order[at[j]];
    }
  }

  lemma {:induction false} UnlistedDependency(ts: seq<Target>, order: seq<string>, n: string) returns (d: string)
    requires Exhausted(ts, order) && IsNode(ts, n) && n !in order
    ensures DependsOn(ts, n, d) && IsNode(ts, d) && d !in order
  {
    d :| DependsOn(ts, n, d) && d !in order;
  }

  lemma {:induction false} UnlistedPath(ts: seq<Target>, order: seq<string>, n: string, k: nat) returns (p: seq<string>)
    requires Exhausted(ts, order) && IsNode(ts, n) && n !in order && k > 0
    ensures |p| == k && p[0] == n && IsPath(ts, p)
    ensures forall i :: 0 <= i < k ==> IsNode(ts, p[i]) && p[i] !in order
  {
    hide Exhausted;
    hide IsNode;
    hide DependsOn;
    if k == 1 {
      p := [n];
    } else {
      p := UnlistedPath(ts, order, n, k - 1);
      var d := UnlistedDependency(ts, order, p[k - 2]);
      p := p + [d];
    }
  }

  lemma {:induction false} Pigeonhole(xs: seq<string>, s: set<string>)
    requires forall x <- xs :: x in s
    ensures Distinct(xs) ==> |xs| <= |s|
  {
    if xs != [] && Distinct(xs) {
      var n := |xs| - 1;
      forall x <- xs[..n] ensures x in s - {xs[n]} {}
      Pigeonhole(xs[..n], s - {xs[n]});
    }
  }

  /** Everything not listed reaches a cycle. */
  lemma {:induction false} UnlistedReachesCycle(ts: seq<Target>, order: seq<string>, nodes: set<string>, n: string)
    requires Exhausted(ts, order) && IsNode(ts, n) && n !in order && forall m :: IsNode(ts, m) ==> m in nodes
    ensures ReachesCycle(ts, n)
  {
    var p := UnlistedPath(ts, order, n, |nodes| + 1);
    forall x <- p ensures x in nodes {}
    Pigeonhole(p, nodes);
    var i, j :| 0 <= i < j < |p| && p[i] == p[j];
    assert |p| > 0 && p[0] == n && IsPath(ts, p);
  }

  // ----- the sort --------------------------------------------------------

  /** `targets.find(t => t.target_id === id)` for each listed id that has one. */
  function Pick(ts: seq<Target>, order: seq<string>): seq<Target> {
    if order == [] then []
    else Pick(ts, order[..|order| - 1]) + Find(ts, order[|order| - 1])
  }

  function Find(ts: seq<Target>, id: string): (found: seq<Target>)
    ensures |found| <= 1 && (found != [] <==> exists t <- ts :: t.id == id)
    ensures forall t <- found :: t in ts && t.id == id
  {
    if ts == [] then [] else if ts[0].id == id then [ts[0]] else Find(ts[1..], id)
  }

  function ToSet(xs: seq<string>): set<string> {
    set x | x in xs
  }

  /** The two maps of the algorithm describe the edges seen so far; `keys` is their insertion order. */
  ghost predicate GraphOf(graph: map<string, seq<string>>, inDegree: map<string, int>, keys: seq<string>, es: seq<Edge>)
  {
    && Distinct(keys) && graph.Keys == inDegree.Keys == ToSet(keys)
    && (forall n :: n in graph ==> graph[n] == Successors(es, n) && inDegree[n] == Open(es, {}, n))
    && forall e <- es :: e.0 in graph && e.1 in graph
  }

  lemma FreshNode(graph: map<string, seq<string>>, inDegree: map<string, int>, keys: seq<string>, es: seq<Edge>,
                  n: string)
    requires GraphOf(graph, inDegree, keys, es) && n !in graph
    ensures GraphOf(graph[n := []], inDegree[n := 0], keys + [n], es)
  {
    hide Successors, Open;
    OpenNone(es, {}, n);
    NoSuccessors(es, n);
    assert ToSet(keys + [n]) == ToSet(keys) + {n};
    hide ToSet;
  }

  lemma {:induction false} NoSuccessors(es: seq<Edge>, n: string)
    requires forall e <- es :: e.0 != n
    ensures Successors(es, n) == []
  {
    if es != [] {
      NoSuccessors(es[..|es| - 1], n);
    }
  }

  method AddNode(graph0: map<string, seq<string>>, inDegree0: map<string, int>, keys0: seq<string>, n: string,
                 ghost es: seq<Edge>)
    returns (graph: map<string, seq<string>>, inDegree: map<string, int>, keys: seq<string>)
    requires GraphOf(graph0, inDegree0, keys0, es)
    ensures GraphOf(graph, inDegree, keys, es) && graph.Keys == graph0.Keys + {n} && keys == Push(keys0, n)
  {
    graph, inDegree, keys := graph0, inDegree0, keys0;
    assert n in graph <==> n in keys;
    if n !in graph {
      FreshNode(graph, inDegree, keys, es, n);
      graph, inDegree, keys := graph[n := []], inDegree[n := 0], keys + [n];
    }
  }

  method AddEdge(graph0: map<string, seq<string>>, inDegree0: map<string, int>, keys: seq<string>, e: Edge,
                 ghost es: seq<Edge>)
    returns (graph: map<string, seq<string>>, inDegree: map<string, int>)
    requires GraphOf(graph0, inDegree0, keys, es) && e.0 in graph0 && e.1 in graph0
    ensures GraphOf(graph, inDegree, keys, es + [e]) && graph.Keys == graph0.Keys
  {
    PushEdge(graph0, inDegree0, keys, e, es);
    hide *;
    graph := graph0[e.0 := graph0[e.0] + [e.1]];
    inDegree := inDegree0[e.1 := inDegree0[e.1] + 1];
  }

  lemma PushEdge(graph: map<string, seq<string>>, inDegree: map<string, int>, keys: seq<string>, e: Edge, es: seq<Edge>)
    requires GraphOf(graph, inDegree, keys, es) && e.0 in graph && e.1 in graph
    ensures e.1 in inDegree
    ensures GraphOf(graph[e.0 := graph[e.0] + [e.1]], inDegree[e.1 := inDegree[e.1] + 1], keys, es + [e])
  {
    hide Open, Successors, Distinct, ToSet;
    forall n <- graph
      ensures graph[e.0 := graph[e.0] + [e.1]][n] == Successors(es + [e], n)
      ensures inDegree[e.1 := inDegree[e.1] + 1][n] == Open(es + [e], {}, n)
    {
      PushEdgeAt(graph, inDegree, keys, e, es, n);
    }
    assert graph[e.0 := graph[e.0] + [e.1]].Keys == graph.Keys
      && inDegree[e.1 := inDegree[e.1] + 1].Keys == inDegree.Keys;
  }

  lemma PushEdgeAt(graph: map<string, seq<string>>, inDegree: map<string, int>, keys: seq<string>, e: Edge,
                   es: seq<Edge>, n: string)
    requires GraphOf(graph, inDegree, keys, es) && e.0 in graph && e.1 in graph && n in graph
    ensures e.1 in inDegree && n in inDegree
    ensures graph[e.0 := graph[e.0] + [e.1]][n] == Successors(es + [e], n)
    ensures inDegree[e.1 := inDegree[e.1] + 1][n] == Open(es + [e], {}, n)
  {
    assert n in inDegree.Keys && e.1 in inDegree.Keys && e.0 in graph.Keys;
    assert graph[n] == Successors(es, n) && inDegree[n] == Open(es, {}, n);
    OpenPush(es, e, n);
    assert Successors(es, n) + [] == Successors(es, n);
    hide *;
  }

  method BuildGraph(targets: seq<Target>)
    returns (graph: map<string, seq<string>>, inDegree: map<string, int>, keys: seq<string>)
    ensures GraphOf(graph, inDegree, keys, Edges(targets)) && graph.Keys == Nodes(targets) && keys == Mentioned(targets)
  {
    graph, inDegree, keys := map[], map[], [];
    EmptyGraph();
    hide *;
    for i := 0 to |targets|
      invariant GraphOf(graph, inDegree, keys, Edges(targets[..i])) && graph.Keys == Nodes(targets[..i])
      invariant keys == Mentioned(targets[..i])
    {
      var target := targets[i];
      ghost var es, ns, ks := Edges(targets[..i]), Nodes(targets[..i]), Mentioned(targets[..i]);
      NextTarget(targets, i);
      FirstDependency(es, ns, ks, target);
      graph, inDegree, keys := AddNode(graph, inDegree, keys, target.id, es);
      for j := 0 to |target.deps|
        invariant GraphOf(graph, inDegree, keys, WithEdges(es, target, j)) && graph.Keys == WithNodes(ns, target, j)
        invariant target.id in graph.Keys && keys == WithMentions(ks, target, j)
      {
        var dep := target.deps[j];
        NextDependency(es, ns, ks, target, j);
        graph, inDegree, keys := AddNode(graph, inDegree, keys, dep, WithEdges(es, target, j));
        graph, inDegree := AddEdge(graph, inDegree, keys, (dep, target.id), WithEdges(es, target, j));
      }
    }
    assert targets[..|targets|] == targets;
  }

  lemma EmptyGraph()
    ensures GraphOf(map[], map[], [], []) && Edges([]) == [] && Nodes([]) == {} && Mentioned([]) == []
  {
    assert ToSet([]) == {};
  }

  lemma NextTarget(ts: seq<Target>, i: nat)
    requires i < |ts|
    ensures Edges(ts[..i + 1]) == WithEdges(Edges(ts[..i]), ts[i], |ts[i].deps|)
    ensures Nodes(ts[..i + 1]) == WithNodes(Nodes(ts[..i]), ts[i], |ts[i].deps|)
    ensures Mentioned(ts[..i + 1]) == WithMentions(Mentioned(ts[..i]), ts[i], |ts[i].deps|)
    ensures ts[..0] == []
  {
    assert ts[..i + 1][..i] == ts[..i];
    hide WithEdges, WithNodes, WithMentions;
  }

  lemma FirstDependency(es: seq<Edge>, ns: set<string>, ks: seq<string>, t: Target)
    ensures WithEdges(es, t, 0) == es && WithNodes(ns, t, 0) == ns + {t.id} && WithMentions(ks, t, 0) == Push(ks, t.id)
  {
  }

  lemma NextDependency(es: seq<Edge>, ns: set<string>, ks: seq<string>, t: Target, j: nat)
    requires j < |t.deps|
    ensures WithEdges(es, t, j + 1) == WithEdges(es, t, j) + [(t.deps[j], t.id)]
    ensures WithNodes(ns, t, j + 1) == WithNodes(ns, t, j) + {t.deps[j]}
    ensures WithMentions(ks, t, j + 1) == Push(WithMentions(ks, t, j), t.deps[j])
  {
  }

  function Zeroes(keys: seq<string>, inDegree: map<string, int>): seq<string>
    requires forall k <- keys :: k in inDegree
  {
    if keys == [] then []
    else (if inDegree[keys[0]] == 0 then [keys[0]] else []) + Zeroes(keys[1..], inDegree)
  }

  lemma {:induction false} ZeroesMeaning(keys: seq<string>, inDegree: map<string, int>)
    requires Distinct(keys) && forall k <- keys :: k in inDegree
    ensures Distinct(Zeroes(keys, inDegree))
    ensures forall n :: n in Zeroes(keys, inDegree) <==> n in keys && inDegree[n] == 0
  {
    if keys != [] {
      ZeroesMeaning(keys[1..], inDegree);
      assert keys == [keys[0]] + keys[1..];
      assert keys[0] !in keys[1..];
    }
  }

  /** The loop state: `done` has been dequeued, in this order. */
  ghost predicate Sorting(es: seq<Edge>, nodes: set<string>, inDegree: map<string, int>, done: seq<string>,
                          queue: seq<string>)
  {
    && inDegree.Keys == nodes && Distinct(done + queue)
    && (forall n <- nodes :: inDegree[n] == Open(es, ToSet(done), n))
    && (forall n :: n in done + queue <==> n in nodes && inDegree[n] == 0)
  }

  ghost predicate EdgesFirst(es: seq<Edge>, order: seq<string>) {
    forall i, e :: 0 <= i < |order| && e in es && e.1 == order[i] ==> e.0 in order[..i]
  }

  lemma DistinctHead(before: seq<string>, x: string, after: seq<string>)
    requires Distinct(before + ([x] + after))
    ensures x !in before && x !in after
  {
    var all := before + ([x] + after);
    assert all[|before|] == x;
    forall i | 0 <= i < |before| ensures before[i] != x {
      assert all[i] == before[i];
    }
    forall i | 0 <= i < |after| ensures after[i] != x {
      assert all[|before| + 1 + i] == after[i];
    }
  }

  // ----- who is served first ---------------------------------------------

  /** Where in `done` the last dependency of `n` stands, -1 if there is none. */
  function LastDep(es: seq<Edge>, done: seq<string>, n: string): (k: int)
    ensures -1 <= k < |done| && (k >= 0 ==> (done[k], n) in es)
    ensures forall l :: k < l < |done| ==> (done[l], n) !in es
  {
    if done == [] then -1
    else if (done[|done| - 1], n) in es then |done| - 1
    else LastDep(es, done[..|done| - 1], n)
  }

  /** The last occurrence. */
  function LastAt(xs: seq<string>, n: string): (k: int)
    ensures -1 <= k < |xs| && (k >= 0 ==> xs[k] == n) && forall l :: k < l < |xs| ==> xs[l] != n
  {
    if xs == [] then -1 else if xs[|xs| - 1] == n then |xs| - 1 else LastAt(xs[..|xs| - 1], n)
  }

  /** `m` has its last dependency before `n` has, or the two share it and `m` is the first of its dependents. */
  ghost predicate ServedBefore(es: seq<Edge>, done: seq<string>, m: string, n: string) {
    var k, l := LastDep(es, done, m), LastDep(es, done, n);
    k < l || (k == l && (k >= 0 ==> LastAt(Successors(es, done[k]), m) < LastAt(Successors(es, done[k]), n)))
  }

  ghost predicate Ranked(es: seq<Edge>, done: seq<string>, all: seq<string>) {
    forall i, j :: 0 <= i < j < |all| ==> ServedBefore(es, done, all[i], all[j])
  }

  /** New dependents in the order in which they lose their last edge. */
  ghost predicate Appended(dependents: seq<string>, k: nat, added: seq<string>) {
    && (forall n <- added :: n in dependents && LastAt(dependents, n) < k)
    && forall i, j :: 0 <= i < j < |added| ==> LastAt(dependents, added[i]) < LastAt(dependents, added[j])
  }

  lemma AppendOne(dependents: seq<string>, k: nat, added: seq<string>, yes: bool)
    requires Appended(dependents, k, added) && k < |dependents| && (yes ==> dependents[k] !in dependents[k + 1..])
    ensures Appended(dependents, k + 1, if yes then added + [dependents[k]] else added)
  {
    var n := dependents[k];
    if yes {
      assert LastAt(dependents, n) == k;
    }
    hide LastAt;
  }

  /** While the dependents in `rest` still have to lose an edge each. */
  ghost predicate Releasing(es: seq<Edge>, nodes: set<string>, inDegree: map<string, int>, finished: seq<string>,
                            queue: seq<string>, rest: seq<string>)
  {
    && inDegree.Keys == nodes && Distinct(finished + queue)
    && (forall n <- rest :: n in nodes)
    && (forall n <- nodes :: inDegree[n] == Open(es, ToSet(finished), n) + multiset(rest)[n])
    && (forall n :: n in finished + queue <==> n in nodes && inDegree[n] == 0)
  }

  lemma ReleaseOne(es: seq<Edge>, nodes: set<string>, inDegree: map<string, int>, finished: seq<string>,
                   queue: seq<string>, n: string, rest: seq<string>, later: seq<string>)
    requires Releasing(es, nodes, inDegree, finished, queue, rest) && rest == [n] + later
    ensures n in nodes && n in inDegree
    ensures var less := inDegree[n := inDegree[n] - 1];
      && Releasing(es, nodes, less, finished, if less[n] == 0 then queue + [n] else queue, later)
      && (less[n] == 0 ==> n !in later)
  {
    hide Open;
    assert rest[0] in rest;
    assert multiset(rest) == multiset{n} + multiset(later);
    assert n !in finished + queue;
    assert finished + (queue + [n]) == (finished + queue) + [n];
  }

  /** The queue after a node is dequeued. */
  ghost predicate Queued(es: seq<Edge>, current: string, before: seq<string>, queue: seq<string>) {
    before <= queue && Appended(Successors(es, current), |Successors(es, current)|, queue[|before|..])
  }

  lemma NowQueued(es: seq<Edge>, current: string, before: seq<string>, added: seq<string>)
    requires Appended(Successors(es, current), |Successors(es, current)|, added)
    ensures Queued(es, current, before, before + added)
  {
    assert (before + added)[|before|..] == added;
    hide Appended, Successors;
  }

  /** Dequeues one node: its dependents lose an open edge each, and those left with none are queued. */
  method Release(graph: map<string, seq<string>>, inDegree0: map<string, int>, queue0: seq<string>, current: string,
                 ghost es: seq<Edge>, ghost nodes: set<string>, ghost done: seq<string>)
    returns (inDegree: map<string, int>, queue: seq<string>)
    requires GraphUse(graph, es, nodes) && current in nodes
    requires Sorting(es, nodes, inDegree0, done, [current] + queue0)
    ensures Sorting(es, nodes, inDegree, done + [current], queue)
    ensures Queued(es, current, queue0, queue)
  {
    inDegree, queue := inDegree0, queue0;
    hide Sorting;
    hide Releasing;
    var dependents := graph[current];
    ghost var finished := done + [current];
    ReleaseStart(es, nodes, inDegree, done, current, queue, dependents);
    assert dependents[0..] == dependents && dependents == Successors(es, current);
    ghost var added: seq<string> := [];
    assert Appended(dependents, 0, []);
    hide *;
    assert queue == queue0 + added;
    for k := 0 to |dependents|
      invariant Releasing(es, nodes, inDegree, finished, queue, dependents[k..])
      invariant queue == queue0 + added && Appended(dependents, k, added)
    {
      var n := dependents[k];
      assert dependents[k..] == [n] + dependents[k + 1..];
      ReleaseOne(es, nodes, inDegree, finished, queue, n, dependents[k..], dependents[k + 1..]);
      inDegree := inDegree[n := inDegree[n] - 1];
      AppendOne(dependents, k, added, inDegree[n] == 0);
      if inDegree[n] == 0 {
        queue, added := queue + [n], added + [n];
      }
    }
    assert dependents[|dependents|..] == [];
    ReleaseEnd(es, nodes, inDegree, finished, queue);
    NowQueued(es, current, queue0, added);
  }

  lemma ReleaseStart(es: seq<Edge>, nodes: set<string>, inDegree: map<string, int>, done: seq<string>, current: string,
                     queue: seq<string>, dependents: seq<string>)
    requires Sorting(es, nodes, inDegree, done, [current] + queue) && dependents == Successors(es, current)
    requires forall e <- es :: e.1 in nodes
    ensures Releasing(es, nodes, inDegree, done + [current], queue, dependents)
  {
    var finished := done + [current];
    assert done + ([current] + queue) == finished + queue;
    assert ToSet(finished) == ToSet(done) + {current};
    DistinctHead(done, current, queue);
    forall n ensures Open(es, ToSet(done), n) == Open(es, ToSet(finished), n) + multiset(dependents)[n] {
      OpenFinish(es, ToSet(done), current, n);
    }
    SuccessorsAreEdges(es, current);
    forall n <- dependents ensures n in nodes {
      assert (current, n) in es;
    }
    hide Open;
    hide Successors;
  }

  lemma ReleaseEnd(es: seq<Edge>, nodes: set<string>, inDegree: map<string, int>, done: seq<string>, queue: seq<string>)
    requires Releasing(es, nodes, inDegree, done, queue, [])
    ensures Sorting(es, nodes, inDegree, done, queue)
  {
    hide Open;
  }

  /** The dequeued nodes are distinct nodes, so there is room for one more. */
  lemma DequeuedFits(es: seq<Edge>, nodes: set<string>, inDegree: map<string, int>, done: seq<string>,
                     queue: seq<string>)
    requires Sorting(es, nodes, inDegree, done, queue) && queue != []
    ensures queue[0] in nodes && |done| < |nodes|
  {
    var order := done + [queue[0]];
    assert order == (done + queue)[..|order|];
    forall n <- order ensures n in nodes {
      assert n in done + queue;
    }
    Pigeonhole(order, nodes);
    assert queue[0] in order;
  }

  lemma DoneInOrder(es: seq<Edge>, nodes: set<string>, inDegree: map<string, int>, done: seq<string>,
                    queue: seq<string>)
    requires Sorting(es, nodes, inDegree, done, queue) && queue != [] && EdgesFirst(es, done)
    ensures EdgesFirst(es, done + [queue[0]])
  {
    var n := queue[0];
    assert (done + queue)[|done|] == n;
    OpenNone(es, ToSet(done), n);
    var order := done + [n];
    forall i, e | 0 <= i < |order| && e in es && e.1 == order[i] ensures e.0 in order[..i] {
      if i < |done| {
        assert order[..i] == done[..i];
      } else {
        assert order[..i] == done;
      }
    }
  }

  lemma DoneExhausts(targets: seq<Target>, nodes: set<string>, inDegree: map<string, int>, done: seq<string>)
    requires Sorting(Edges(targets), nodes, inDegree, done, []) && EdgesFirst(Edges(targets), done)
    requires forall n :: n in nodes <==> IsNode(targets, n)
    ensures Distinct(done) && DependenciesFirst(targets, done)
    ensures forall n :: n in done <==> IsNode(targets, n) && !ReachesCycle(targets, n)
  {
    EdgesMeanDependencies(targets);
    assert done + [] == done;
    forall i, d | 0 <= i < |done| && DependsOn(targets, done[i], d) ensures d in done[..i] {
      assert (d, done[i]) in Edges(targets);
    }
    forall n | IsNode(targets, n) && n !in done ensures exists d :: DependsOn(targets, n, d) && d !in done {
      OpenNone(Edges(targets), ToSet(done), n);
      var e :| e in Edges(targets) && e.1 == n && e.0 !in ToSet(done);
      assert (e.0, n) in Edges(targets);
      assert DependsOn(targets, n, e.0);
    }
    forall n | IsNode(targets, n) ensures n in done <==> !ReachesCycle(targets, n) {
      if n in done {
        ListedIsAcyclic(targets, done, n);
      } else {
        UnlistedReachesCycle(targets, done, nodes, n);
      }
    }
  }

  /** A queued node depends on dequeued ones only. */
  lemma QueuedIsFree(es: seq<Edge>, nodes: set<string>, inDegree: map<string, int>, done: seq<string>,
                     current: string, queue: seq<string>, n: string)
    requires Sorting(es, nodes, inDegree, done, [current] + queue) && n in done + ([current] + queue)
    ensures (current, n) !in es
  {
    OpenNone(es, ToSet(done), n);
    DistinctHead(done, current, queue);
    hide Open;
  }

  lemma LastDepStays(es: seq<Edge>, done: seq<string>, current: string, n: string)
    ensures LastDep(es, done + [current], n) == if (current, n) in es then |done| else LastDep(es, done, n)
  {
    assert (done + [current])[..|done|] == done;
  }

  lemma StillBefore(es: seq<Edge>, done: seq<string>, current: string, m: string, n: string)
    requires (current, m) !in es
    ensures (current, n) !in es ==> (ServedBefore(es, done + [current], m, n) <==> ServedBefore(es, done, m, n))
    ensures (current, n) in es ==> ServedBefore(es, done + [current], m, n)
  {
    LastDepStays(es, done, current, m);
    LastDepStays(es, done, current, n);
    var k := LastDep(es, done, m);
    assert k >= 0 ==> (done + [current])[k] == done[k];
    hide LastDep, LastAt, Successors;
  }

  lemma BothNew(es: seq<Edge>, done: seq<string>, current: string, m: string, n: string)
    requires (current, m) in es && (current, n) in es
    requires LastAt(Successors(es, current), m) < LastAt(Successors(es, current), n)
    ensures ServedBefore(es, done + [current], m, n)
  {
    LastDepStays(es, done, current, m);
    LastDepStays(es, done, current, n);
    hide LastDep, LastAt, Successors;
  }

  lemma RankedNext(es: seq<Edge>, nodes: set<string>, inDegree: map<string, int>, done: seq<string>, current: string,
                   before: seq<string>, queue: seq<string>)
    requires Sorting(es, nodes, inDegree, done, [current] + before) && Queued(es, current, before, queue)
    requires Ranked(es, done, done + ([current] + before))
    ensures Ranked(es, done + [current], done + [current] + queue)
    ensures done + ([current] + before) <= done + [current] + queue
  {
    var earlier, all := done + ([current] + before), done + [current] + queue;
    var added := queue[|before|..];
    assert all == earlier + added;
    SuccessorsAreEdges(es, current);
    forall i, j | 0 <= i < j < |all| ensures ServedBefore(es, done + [current], all[i], all[j]) {
      if i < |earlier| {
        assert all[i] in earlier;
        QueuedIsFree(es, nodes, inDegree, done, current, before, all[i]);
        StillBefore(es, done, current, all[i], all[j]);
        if j < |earlier| {
          assert all[j] in earlier;
          QueuedIsFree(es, nodes, inDegree, done, current, before, all[j]);
        } else {
          assert all[j] == added[j - |earlier|] && added[j - |earlier|] in added;
        }
      } else {
        assert all[i] == added[i - |earlier|] && all[j] == added[j - |earlier|];
        assert all[i] in added && all[j] in added;
        BothNew(es, done, current, all[i], all[j]);
      }
    }
  }

  lemma RankedStart(es: seq<Edge>, queue: seq<string>)
    ensures Ranked(es, [], [] + queue)
  {
  }

  /** What is known of the next node in the queue. */
  lemma NextDequeued(targets: seq<Target>, es: seq<Edge>, nodes: set<string>, inDegree: map<string, int>,
                     done: seq<string>, queue: seq<string>)
    requires Sorting(es, nodes, inDegree, done, queue) && queue != [] && EdgesFirst(es, done)
    ensures queue[0] in nodes && |done| < |nodes| && EdgesFirst(es, done + [queue[0]])
    ensures Sorting(es, nodes, inDegree, done, [queue[0]] + queue[1..])
    ensures Pick(targets, done + [queue[0]]) == Pick(targets, done) + Find(targets, queue[0])
  {
    hide *;
    DoneInOrder(es, nodes, inDegree, done, queue);
    DequeuedFits(es, nodes, inDegree, done, queue);
    PickNext(targets, done, queue[0]);
    assert queue == [queue[0]] + queue[1..];
  }

  method DequeueAll(targets: seq<Target>, graph: map<string, seq<string>>, inDegree0: map<string, int>,
                    queue0: seq<string>, ghost es: seq<Edge>, ghost nodes: set<string>)
    returns (sorted: seq<Target>, ghost inDegree1: map<string, int>, ghost order: seq<string>)
    requires GraphUse(graph, es, nodes) && Sorting(es, nodes, inDegree0, [], queue0) && EdgesFirst(es, [])
    ensures sorted == Pick(targets, order)
    ensures Sorting(es, nodes, inDegree1, order, []) && EdgesFirst(es, order)
    ensures Ranked(es, order, order) && queue0 <= order
  {
    sorted, order := [], [];
    var inDegree, queue := inDegree0, queue0;
    assert Pick(targets, []) == [];
    RankedStart(es, queue0);
    hide *;
    while queue != []
      invariant Sorting(es, nodes, inDegree, order, queue) && EdgesFirst(es, order)
      invariant Ranked(es, order, order + queue) && queue0 <= order + queue
      invariant sorted == Pick(targets, order)
      decreases |nodes| - |order|
    {
      var current := queue[0];
      NextDequeued(targets, es, nodes, inDegree, order, queue);
      sorted := sorted + Find(targets, current);
      ghost var before, was := queue[1..], inDegree;
      assert queue == [current] + before;
      inDegree, queue := Release(graph, inDegree, queue[1..], current, es, nodes, order);
      RankedNext(es, nodes, was, order, current, before, queue);
      order := order + [current];
    }
    assert order + [] == order;
    inDegree1 := inDegree;
  }

  // ----- the order, by the dependencies alone -----------------------------

  /** The last target with the id `n` that lists `d` stands after every target with the id `m` that does. */
  ghost predicate ListedLater(ts: seq<Target>, d: string, m: string, n: string) {
    exists p :: 0 <= p < |ts| && ts[p].id == n && d in ts[p].deps
                && forall q :: p <= q < |ts| ==> !(ts[q].id == m && d in ts[q].deps)
  }

  /** `m` is served before `n`: each dependency of `m` is listed before some dependency of `n`, unless it is the last
      one of both and `n` is the later of the targets that list it. */
  ghost predicate InTurn(ts: seq<Target>, order: seq<string>, m: string, n: string) {
    forall k :: 0 <= k < |order| && DependsOn(ts, m, order[k]) ==>
      || (exists l :: k < l < |order| && DependsOn(ts, n, order[l]))
      || (DependsOn(ts, n, order[k]) && ListedLater(ts, order[k], m, n))
  }

  ghost predicate Free(ts: seq<Target>, n: string) {
    forall d :: !DependsOn(ts, n, d)
  }

  /** The nodes among `ks` without dependencies. */
  ghost function FreeOnes(ts: seq<Target>, ks: seq<string>): seq<string> {
    if ks == [] then [] else (if Free(ts, ks[0]) then [ks[0]] else []) + FreeOnes(ts, ks[1..])
  }

  /** First the nodes without dependencies, in the order in which they are first mentioned; then first come, first
      served. */
  ghost predicate Scheduled(ts: seq<Target>, order: seq<string>) {
    && FreeOnes(ts, Mentioned(ts)) <= order
    && forall i, j :: 0 <= i < j < |order| ==> InTurn(ts, order, order[i], order[j])
  }

  lemma LastAtPush(xs: seq<string>, x: string, n: string)
    ensures LastAt(xs + [x], n) == if x == n then |xs| else LastAt(xs, n)
  {
    assert (xs + [x])[..|xs|] == xs;
  }

  lemma SuccessorsPush(es: seq<Edge>, e: Edge, d: string)
    ensures Successors(es + [e], d) == if e.0 == d then Successors(es, d) + [e.1] else Successors(es, d)
  {
    assert (es + [e])[..|es|] == es;
  }

  lemma {:induction false} SuccessorsGrow(es: seq<Edge>, t: Target, j: nat, d: string, n: string)
    requires j <= |t.deps|
    ensures var earlier, all := Successors(es, d), Successors(WithEdges(es, t, j), d);
      LastAt(all, n) == if n == t.id && d in t.deps[..j] then |all| - 1 else LastAt(earlier, n)
  {
    if j > 0 {
      SuccessorsGrow(es, t, j - 1, d, n);
      var before, e := WithEdges(es, t, j - 1), (t.deps[j - 1], t.id);
      assert WithEdges(es, t, j) == before + [e];
      assert t.deps[..j] == t.deps[..j - 1] + [t.deps[j - 1]];
      SuccessorsPush(before, e, d);
      LastAtPush(Successors(before, d), t.id, n);
    }
    hide Successors, LastAt;
  }

  lemma ListedInPrefix(ts: seq<Target>, d: string, m: string, n: string)
    requires ts != [] && ListedLater(ts[..|ts| - 1], d, m, n)
    requires !(ts[|ts| - 1].id == m && d in ts[|ts| - 1].deps)
    ensures ListedLater(ts, d, m, n)
  {
    var init := ts[..|ts| - 1];
    var p :| 0 <= p < |init| && init[p].id == n && d in init[p].deps
             && forall q :: p <= q < |init| ==> !(init[q].id == m && d in init[q].deps);
    assert ts[p] == init[p] && forall q :: p <= q < |init| ==> ts[q] == init[q];
  }

  lemma LastListed(ts: seq<Target>, d: string, m: string)
    requires ts != [] && ts[|ts| - 1].id != m && d in ts[|ts| - 1].deps
    ensures ListedLater(ts, d, m, ts[|ts| - 1].id)
  {
  }

  lemma {:induction false} LaterDependent(ts: seq<Target>, d: string, m: string, n: string)
    requires LastAt(Successors(Edges(ts), d), m) < LastAt(Successors(Edges(ts), d), n)
    ensures ListedLater(ts, d, m, n)
  {
    if ts != [] {
      var t, init := ts[|ts| - 1], ts[..|ts| - 1];
      SuccessorsGrow(Edges(init), t, |t.deps|, d, m);
      SuccessorsGrow(Edges(init), t, |t.deps|, d, n);
      assert t.deps[..|t.deps|] == t.deps;
      assert Edges(ts) == WithEdges(Edges(init), t, |t.deps|);
      hide *;
      if n == t.id && d in t.deps {
        LastListed(ts, d, m);
      } else {
        LaterDependent(init, d, m, n);
        ListedInPrefix(ts, d, m, n);
      }
    }
  }

  lemma ServedInTurn(ts: seq<Target>, order: seq<string>, m: string, n: string)
    requires ServedBefore(Edges(ts), order, m, n)
    ensures InTurn(ts, order, m, n)
  {
    var es := Edges(ts);
    var k, l := LastDep(es, order, m), LastDep(es, order, n);
    if k == l && k >= 0 {
      LaterDependent(ts, order[k], m, n);
    }
    forall i | 0 <= i < |order|
      ensures (order[i], m) in es <==> DependsOn(ts, m, order[i])
      ensures (order[i], n) in es <==> DependsOn(ts, n, order[i])
    {
      EdgesMeanDependencies(ts);
    }
    hide *;
    forall i | 0 <= i < |order| && DependsOn(ts, m, order[i])
      ensures || (exists j :: i < j < |order| && DependsOn(ts, n, order[j]))
              || (DependsOn(ts, n, order[i]) && ListedLater(ts, order[i], m, n))
    {
      assert (order[i], m) in es;
      assert i <= k;
      assert (order[l], n) in es;
    }
  }

  lemma {:induction false} ZeroesAreFree(ts: seq<Target>, keys: seq<string>, inDegree: map<string, int>)
    requires forall k <- keys :: k in inDegree && inDegree[k] == Open(Edges(ts), {}, k)
    ensures Zeroes(keys, inDegree) == FreeOnes(ts, keys)
  {
    if keys != [] {
      ZeroesAreFree(ts, keys[1..], inDegree);
      OpenNone(Edges(ts), {}, keys[0]);
      EdgesMeanDependencies(ts);
      assert keys[0] in keys;
      if Free(ts, keys[0]) {
        forall e <- Edges(ts) ensures e.1 != keys[0] {
          assert DependsOn(ts, e.1, e.0) by { assert (e.0, e.1) in Edges(ts); }
        }
      } else {
        var d :| DependsOn(ts, keys[0], d);
        assert (d, keys[0]) in Edges(ts);
      }
      hide Open, Edges, DependsOn;
    }
  }

  lemma ScheduleMeans(ts: seq<Target>, order: seq<string>)
    requires Ranked(Edges(ts), order, order) && FreeOnes(ts, Mentioned(ts)) <= order
    ensures Scheduled(ts, order)
  {
    hide InTurn, ServedBefore, FreeOnes, Mentioned, Edges;
    forall i, j | 0 <= i < j < |order| ensures InTurn(ts, order, order[i], order[j]) {
      ServedInTurn(ts, order, order[i], order[j]);
    }
  }

  // ----- targets without dependencies -------------------------------------

  lemma {:induction false} MentionedOnce(ts: seq<Target>)
    requires Distinct(TargetIds(ts)) && forall t <- ts :: t.deps == []
    ensures Mentioned(ts) == TargetIds(ts)
  {
    if ts != [] {
      var n := |ts| - 1;
      assert TargetIds(ts) == TargetIds(ts[..n]) + [ts[n].id];
      DistinctFront(TargetIds(ts[..n]), ts[n].id);
      MentionedOnce(ts[..n]);
      assert ts[n] in ts && WithMentions(Mentioned(ts[..n]), ts[n], 0) == Push(Mentioned(ts[..n]), ts[n].id);
    }
  }

  lemma DistinctFront(xs: seq<string>, x: string)
    requires Distinct(xs + [x])
    ensures Distinct(xs) && x !in xs
  {
    var all := xs + [x];
    forall i, j | 0 <= i < j < |xs| ensures xs[i] != xs[j] {
      assert all[i] != all[j];
    }
    forall i | 0 <= i < |xs| ensures xs[i] != x {
      assert all[i] != all[|xs|];
    }
  }

  lemma {:induction false} AllFree(ts: seq<Target>, ks: seq<string>)
    requires forall t <- ts :: t.deps == []
    ensures FreeOnes(ts, ks) == ks && forall n :: Free(ts, n)
  {
    if ks != [] {
      AllFree(ts, ks[1..]);
    }
  }

  lemma NoneLonger(ids: seq<string>, order: seq<string>)
    requires ids <= order && Distinct(order) && forall n <- order :: n in ids
    ensures order == ids
  {
    if order != [] {
      WithinPrefix(ids, order, |order| - 1);
    }
  }

  lemma WithinPrefix(ids: seq<string>, order: seq<string>, i: nat)
    requires ids <= order && Distinct(order) && i < |order| && order[i] in ids
    ensures i < |ids|
  {
    var j :| 0 <= j < |ids| && ids[j] == order[i];
    assert order[j] == order[i];
  }

  lemma NextId(ts: seq<Target>, n: nat)
    requires n < |ts|
    ensures TargetIds(ts)[..n + 1] == TargetIds(ts)[..n] + [ts[n].id] && ts[..n + 1] == ts[..n] + [ts[n]]
  {
  }

  lemma {:induction false} PickOwn(ts: seq<Target>, n: nat)
    requires Distinct(TargetIds(ts)) && n <= |ts|
    ensures Pick(ts, TargetIds(ts)[..n]) == ts[..n]
  {
    if n == 0 {
      assert Pick(ts, []) == [];
    } else {
      hide *;
      PickOwn(ts, n - 1);
      FindOwn(ts, n - 1);
      NextId(ts, n - 1);
      PickNext(ts, TargetIds(ts)[..n - 1], ts[n - 1].id);
    }
  }

  lemma {:induction false} FindOwn(ts: seq<Target>, i: nat)
    requires Distinct(TargetIds(ts)) && i < |ts|
    ensures Find(ts, ts[i].id) == [ts[i]]
  {
    if i > 0 {
      assert TargetIds(ts)[0] != TargetIds(ts)[i];
      assert TargetIds(ts[1..]) == TargetIds(ts)[1..];
      FindOwn(ts[1..], i - 1);
    }
  }

  lemma FreeTargetsInOrder(ts: seq<Target>, order: seq<string>)
    requires Distinct(TargetIds(ts)) && (forall t <- ts :: t.deps == [])
    requires Scheduled(ts, order) && Distinct(order) && forall n <- order :: IsNode(ts, n)
    ensures Pick(ts, order) == ts
  {
    MentionedOnce(ts);
    AllFree(ts, Mentioned(ts));
    forall n <- order ensures n in TargetIds(ts) {
      var t :| t in ts && (t.id == n || n in t.deps);
      var i :| 0 <= i < |ts| && ts[i] == t;
      assert TargetIds(ts)[i] == n;
    }
    NoneLonger(TargetIds(ts), order);
    PickOwn(ts, |ts|);
    assert TargetIds(ts)[..|ts|] == TargetIds(ts) && ts[..|ts|] == ts;
    hide *;
  }

  ghost predicate NoDependencies(ts: seq<Target>) {
    forall t <- ts :: t.deps == []
  }

  /** Distinct targets without any dependencies come back as they were given. */
  lemma InputOrder(ts: seq<Target>, order: seq<string>)
    requires Scheduled(ts, order) && Distinct(order) && forall n <- order :: IsNode(ts, n)
    ensures Distinct(TargetIds(ts)) && NoDependencies(ts) ==> Pick(ts, order) == ts
  {
    if Distinct(TargetIds(ts)) && NoDependencies(ts) {
      FreeTargetsInOrder(ts, order);
    }
  }

  /** The result lists targets at most once, each after those of its dependencies that are listed, exactly the ones
      from which no dependency path reaches a cycle; it is a rearrangement of the targets exactly when their ids are
      distinct and there is no cycle. Nodes are served first come, first served, so distinct targets without
      dependencies come back in input order. */
  method ResolveDependencies(targets: seq<Target>) returns (sorted: seq<Target>)
    ensures Distinct(TargetIds(sorted)) && (forall t <- sorted :: t in targets)
    ensures forall i, j ::
      0 <= i < |sorted| && 0 <= j < |sorted| && DependsOn(targets, sorted[i].id, sorted[j].id) ==> j < i
    ensures forall n :: n in TargetIds(sorted) <==> (exists t <- targets :: t.id == n) && !ReachesCycle(targets, n)
    ensures multiset(sorted) == multiset(targets)
            <==> Distinct(TargetIds(targets)) && forall t <- targets :: !ReachesCycle(targets, t.id)
    ensures exists order :: Scheduled(targets, order) && sorted == Pick(targets, order)
    ensures Distinct(TargetIds(targets)) && NoDependencies(targets) ==> sorted == targets
  {
    var graph, inDegree, keys := BuildGraph(targets);
    ghost var es, nodes := Edges(targets), Nodes(targets);
    SortingStart(graph, inDegree, keys, es);
    UseGraph(graph, inDegree, keys, es);
    var queue := Zeroes(keys, inDegree);
    FreeFirst(targets, graph, inDegree, keys);
    hide *;
    ghost var inDegree1;
    ghost var order;
    sorted, inDegree1, order := DequeueAll(targets, graph, inDegree, queue, es, nodes);
    Resolved(targets, nodes, inDegree1, order);
  }

  lemma Resolved(targets: seq<Target>, nodes: set<string>, inDegree: map<string, int>, order: seq<string>)
    requires Sorting(Edges(targets), nodes, inDegree, order, []) && EdgesFirst(Edges(targets), order)
    requires Ranked(Edges(targets), order, order) && FreeOnes(targets, Mentioned(targets)) <= order
    requires nodes == Nodes(targets)
    ensures var sorted := Pick(targets, order);
      && Distinct(TargetIds(sorted)) && (forall t <- sorted :: t in targets)
      && (forall i, j ::
            0 <= i < |sorted| && 0 <= j < |sorted| && DependsOn(targets, sorted[i].id, sorted[j].id) ==> j < i)
      && (forall n :: n in TargetIds(sorted) <==> (exists t <- targets :: t.id == n) && !ReachesCycle(targets, n))
      && (multiset(sorted) == multiset(targets)
          <==> Distinct(TargetIds(targets)) && forall t <- targets :: !ReachesCycle(targets, t.id))
      && Scheduled(targets, order)
      && (Distinct(TargetIds(targets)) && NoDependencies(targets) ==> sorted == targets)
  {
    hide *;
    NodesMeaning(targets);
    DoneExhausts(targets, nodes, inDegree, order);
    ScheduleMeans(targets, order);
    InputOrder(targets, order);
    SortedTargets(targets, order);
    AcyclicPermutation(targets, order);
  }

  lemma FreeFirst(ts: seq<Target>, graph: map<string, seq<string>>, inDegree: map<string, int>, keys: seq<string>)
    requires GraphOf(graph, inDegree, keys, Edges(ts))
    ensures (forall k <- keys :: k in inDegree) && Zeroes(keys, inDegree) == FreeOnes(ts, keys)
  {
    forall k <- keys ensures k in inDegree && inDegree[k] == Open(Edges(ts), {}, k) {
      assert k in graph.Keys;
    }
    hide Open, Successors, Edges;
    ZeroesAreFree(ts, keys, inDegree);
  }

  lemma PickNext(ts: seq<Target>, order: seq<string>, n: string)
    ensures Pick(ts, order + [n]) == Pick(ts, order) + Find(ts, n)
  {
    assert (order + [n])[..|order|] == order;
  }

  /** What the loop reads of the graph. */
  ghost predicate GraphUse(graph: map<string, seq<string>>, es: seq<Edge>, nodes: set<string>) {
    && graph.Keys == nodes && (forall n <- nodes :: graph[n] == Successors(es, n)) && forall e <- es :: e.1 in nodes
  }

  lemma UseGraph(graph: map<string, seq<string>>, inDegree: map<string, int>, keys: seq<string>, es: seq<Edge>)
    requires GraphOf(graph, inDegree, keys, es)
    ensures GraphUse(graph, es, graph.Keys)
  {
    hide Open;
    hide Successors;
  }

  lemma {:induction false} SortingStart(graph: map<string, seq<string>>, inDegree: map<string, int>, keys: seq<string>,
                                        es: seq<Edge>)
    requires GraphOf(graph, inDegree, keys, es)
    ensures Sorting(es, graph.Keys, inDegree, [], Zeroes(keys, inDegree)) && EdgesFirst(es, [])
  {
    ZeroesMeaning(keys, inDegree);
    var queue := Zeroes(keys, inDegree);
    hide Open;
    hide Successors;
    hide Zeroes;
    assert [] + queue == queue && ToSet([]) == {};
  }

  // ----- what the caller gets --------------------------------------------

  function TargetIds(ts: seq<Target>): (ids: seq<string>)
    ensures |ids| == |ts| && forall i :: 0 <= i < |ts| ==> ids[i] == ts[i].id
  {
    seq(|ts|, i requires 0 <= i < |ts| => ts[i].id)
  }

  /** The picked targets are those at increasing positions of the order. */
  ghost predicate AtPositions(picked: seq<Target>, order: seq<string>, at: seq<nat>) {
    && |at| == |picked| && (forall k :: 0 <= k < |at| ==> at[k] < |order| && picked[k].id == order[at[k]])
    && (forall j, k :: 0 <= j < k < |at| ==> at[j] < at[k])
  }

  lemma {:induction false} PickPositions(ts: seq<Target>, order: seq<string>) returns (at: seq<nat>)
    ensures AtPositions(Pick(ts, order), order, at) && forall t <- Pick(ts, order) :: t in ts
  {
    at := [];
    if order != [] {
      var m := |order| - 1;
      var found := Find(ts, order[m]);
      at := PickPositions(ts, order[..m]);
      PositionsGrow(Pick(ts, order[..m]), order, at, found);
      at := at + if found == [] then [] else [m];
    }
    hide Find, AtPositions;
    EmptyPositions();
  }

  lemma EmptyPositions()
    ensures AtPositions([], [], [])
  {
  }

  lemma PositionsGrow(before: seq<Target>, order: seq<string>, at: seq<nat>, found: seq<Target>)
    requires order != [] && AtPositions(before, order[..|order| - 1], at)
    requires |found| <= 1 && forall t <- found :: t.id == order[|order| - 1]
    ensures AtPositions(before + found, order, at + if found == [] then [] else [|order| - 1])
  {
    if found == [] {
      assert before + found == before && at + [] == at;
    } else {
      assert found == [found[0]] && found[0] in found;
    }
  }

  lemma {:induction false} PickIds(ts: seq<Target>, order: seq<string>, n: string)
    ensures n in TargetIds(Pick(ts, order)) <==> n in order && exists t <- ts :: t.id == n
  {
    if order != [] {
      var m := |order| - 1;
      var before, last := Pick(ts, order[..m]), Find(ts, order[m]);
      PickIds(ts, order[..m], n);
      assert order == order[..m] + [order[m]];
      assert TargetIds(before + last) == TargetIds(before) + TargetIds(last);
      assert TargetIds(last) == if last == [] then [] else [order[m]];
    }
    hide Find, TargetIds;
  }

  /** The output of the sort: distinct targets, every dependency that is also output stands before its dependents,
      and exactly the targets from which no dependency path reaches a cycle. */
  lemma {:induction false} SortedTargets(ts: seq<Target>, order: seq<string>)
    requires Distinct(order) && DependenciesFirst(ts, order)
    requires forall n :: n in order <==> IsNode(ts, n) && !ReachesCycle(ts, n)
    ensures var sorted := Pick(ts, order);
      && Distinct(TargetIds(sorted)) && (forall t <- sorted :: t in ts)
      && (forall i, j :: 0 <= i < |sorted| && 0 <= j < |sorted| && DependsOn(ts, sorted[i].id, sorted[j].id) ==> j < i)
      && forall n :: n in TargetIds(sorted) <==> (exists t <- ts :: t.id == n) && !ReachesCycle(ts, n)
  {
    var sorted := Pick(ts, order);
    var at := PickPositions(ts, order);
    forall n ensures n in TargetIds(sorted) <==> n in order && exists t <- ts :: t.id == n {
      PickIds(ts, order, n);
    }
    hide Pick, ReachesCycle;
    forall i, j | 0 <= i < j < |sorted| ensures TargetIds(sorted)[i] != TargetIds(sorted)[j] {
      assert order[at[i]] != order[at[j]];
    }
    forall i, j | 0 <= i < |sorted| && 0 <= j < |sorted| && DependsOn(ts, sorted[i].id, sorted[j].id) ensures j < i {
      assert sorted[j].id in order[..at[i]];
      var k :| 0 <= k < at[i] && order[k] == order[at[j]];
    }
  }

  /** The result is a rearrangement of the targets exactly when their ids are distinct and there is no cycle. */
  lemma AcyclicPermutation(ts: seq<Target>, order: seq<string>)
    requires Distinct(order) && DependenciesFirst(ts, order)
    requires forall n :: n in order <==> IsNode(ts, n) && !ReachesCycle(ts, n)
    ensures multiset(Pick(ts, order)) == multiset(ts)
            <==> Distinct(TargetIds(ts)) && forall t <- ts :: !ReachesCycle(ts, t.id)
  {
    hide *;
    SortedTargets(ts, order);
    var sorted := Pick(ts, order);
    if Distinct(TargetIds(ts)) && forall t <- ts :: !ReachesCycle(ts, t.id) {
      forall t | t in ts ensures t in sorted {
        SameIdSameTarget(ts, sorted, t);
      }
      SameTargets(sorted, ts);
    }
    if multiset(sorted) == multiset(ts) {
      SameIds(sorted, ts);
      forall t <- ts ensures !ReachesCycle(ts, t.id) {
        IdIn(sorted, t);
      }
    }
  }

  lemma IdIn(ts: seq<Target>, t: Target)
    requires t in multiset(ts)
    ensures t.id in TargetIds(ts)
  {
    var i :| 0 <= i < |ts| && ts[i] == t;
    assert TargetIds(ts)[i] == t.id;
  }

  /** The ids of a rearrangement are as distinct as those of the original. */
  lemma SameIds(sorted: seq<Target>, ts: seq<Target>)
    requires Distinct(TargetIds(sorted)) && multiset(sorted) == multiset(ts)
    ensures Distinct(TargetIds(ts)) && forall t <- ts :: t in multiset(sorted)
  {
    TargetsByIds(sorted);
    forall t <- ts ensures t in multiset(sorted) {
      assert t in multiset(ts);
    }
    forall i, j | 0 <= i < j < |ts| ensures TargetIds(ts)[i] != TargetIds(ts)[j] {
      assert ts[i] in multiset(sorted) && ts[j] in multiset(sorted);
      if ts[i].id == ts[j].id {
        SameIdOnce(sorted, ts[i], ts[j]);
        TwiceIn(ts, i, j);
      }
    }
  }

  lemma SameIdOnce(ts: seq<Target>, t: Target, u: Target)
    requires Distinct(TargetIds(ts)) && t in multiset(ts) && u in multiset(ts) && t.id == u.id
    ensures t == u
  {
    var k :| 0 <= k < |ts| && ts[k] == t;
    var l :| 0 <= l < |ts| && ts[l] == u;
    assert TargetIds(ts)[k] == TargetIds(ts)[l];
  }

  lemma TwiceIn<T>(xs: seq<T>, i: nat, j: nat)
    requires i < j < |xs| && xs[i] == xs[j]
    ensures multiset(xs)[xs[i]] >= 2
  {
    assert xs == xs[..j] + [xs[j]] + xs[j + 1..];
    assert xs[i] == xs[..j][i];
    assert xs[i] in multiset(xs[..j]);
  }

  lemma SameTargets(ts: seq<Target>, us: seq<Target>)
    requires Distinct(TargetIds(ts)) && Distinct(TargetIds(us)) && forall t :: t in ts <==> t in us
    ensures multiset(ts) == multiset(us)
  {
    TargetsByIds(ts);
    TargetsByIds(us);
    hide *;
    assert forall t :: multiset(ts)[t] == multiset(us)[t];
  }

  lemma SameIdSameTarget(ts: seq<Target>, sorted: seq<Target>, t: Target)
    requires Distinct(TargetIds(ts)) && t in ts && t.id in TargetIds(sorted) && forall u <- sorted :: u in ts
    ensures t in sorted
  {
    assert forall k :: 0 <= k < |sorted| ==> sorted[k] in sorted;
    var i :| 0 <= i < |ts| && ts[i] == t;
    var k :| 0 <= k < |sorted| && TargetIds(sorted)[k] == t.id;
    var j :| 0 <= j < |ts| && ts[j] == sorted[k];
    assert TargetIds(ts)[i] == TargetIds(ts)[j];
  }

  lemma {:induction false} TargetsByIds(ts: seq<Target>)
    requires Distinct(TargetIds(ts))
    ensures forall t :: multiset(ts)[t] == if t in ts then 1 else 0
  {
    if ts != [] {
      var n := |ts| - 1;
      assert TargetIds(ts[..n]) == TargetIds(ts)[..n];
      TargetsByIds(ts[..n]);
      assert ts == ts[..n] + [ts[n]];
      forall k | 0 <= k < n ensures ts[k] != ts[n] {
        assert TargetIds(ts)[k] != TargetIds(ts)[n];
      }
    }
  }
}
