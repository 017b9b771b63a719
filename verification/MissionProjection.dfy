/** The dependency order of a mission: Kahn's algorithm as the projection runs it
    (scripts/adapters/mission_projection.py) and the independent check the dispatcher makes
    before it sends the ordered jobs out (scripts/runtime/heartbeat/dispatcher.py). */
module MissionProjection {
  import opened Wrappers
  import opened KahnLoop

  /** A graph node: `body` stands for the fields the ordering carries along unread. */
  datatype Node = Node(id: string, dependsOn: seq<string>, body: string)

  datatype ProjectionError = DuplicateIds | DependencyCycle

  // ---------------------------------------------------------------- specification

  function Selected(nodes: seq<Node>): set<string> {
    set n | n in nodes :: n.id
  }

  ghost predicate DistinctIds(nodes: seq<Node>) {
    forall i, j :: 0 <= i < j < |nodes| ==> nodes[i].id != nodes[j].id
  }

  /** The dependencies of `n` that count: duplicates merged, those outside the selection dropped. */
  function SelectedDeps(selected: set<string>, n: Node): set<string> {
    set d | d in n.dependsOn && d in selected
  }

  ghost predicate DependsOn(nodes: seq<Node>, a: Node, b: Node) {
    a in nodes && b in nodes && b.id in a.dependsOn
  }

  /** A closed walk along dependencies. */
  ghost predicate IsCycle(nodes: seq<Node>, walk: seq<Node>) {
    && |walk| >= 2
    && walk[0] == walk[|walk| - 1]
    && forall i :: 0 <= i < |walk| - 1 ==> DependsOn(nodes, walk[i], walk[i + 1])
  }

  ghost predicate Acyclic(nodes: seq<Node>) {
    forall walk :: !IsCycle(nodes, walk)
  }

  /** Every dependency that is itself in the sequence occurs strictly earlier. */
  ghost predicate DependenciesFirst(order: seq<Node>) {
    forall i :: 0 <= i < |order| ==> SelectedDeps(Selected(order), order[i]) <= Selected(order[..i])
  }

  function Ids(nodes: seq<Node>): (ids: seq<string>)
    ensures |ids| == |nodes| && forall i :: 0 <= i < |nodes| ==> ids[i] == nodes[i].id
  {
    seq(|nodes|, i requires 0 <= i < |nodes| => nodes[i].id)
  }

  /** The selected dependencies of each selected id. */
  ghost function GraphOf(nodes: seq<Node>): Graph {
    map id | id in Selected(nodes) :: SelectedDeps(Selected(nodes), ById(nodes)[id])
  }

  /** The input position of each id. */
  ghost function RankOf(nodes: seq<Node>): map<string, nat> {
    map id | id in Selected(nodes) :: PositionOf(Ids(nodes), id)
  }

  ghost function PositionOf(ids: seq<string>, id: string): nat {
    if |ids| == 0 || ids[0] == id then 0 else 1 + PositionOf(ids[1..], id)
  }

  /** First in, first out: nodes come in the order of the position of their last selected dependency
      (those without one first), and nodes freed by the same dependency keep their input order. */
  ghost predicate FifoOrder(nodes: seq<Node>, order: seq<Node>) {
    Fifo(GraphOf(nodes), RankOf(nodes), Ids(order))
  }

  /** by_id: one entry per id, the last node winning. */
  function ById(nodes: seq<Node>): (m: map<string, Node>)
    ensures m.Keys == Selected(nodes)
    ensures forall id :: id in m ==> m[id] in nodes && m[id].id == id
  {
    if |nodes| == 0 then map[]
    else
      var last := nodes[|nodes| - 1];
      assert nodes == nodes[..|nodes| - 1] + [last];
      ById(nodes[..|nodes| - 1])[last.id := last]
  }

  // ---------------------------------------------------------------- facts about the specification

  lemma SameId(nodes: seq<Node>, a: Node, b: Node)
    requires DistinctIds(nodes) && a in nodes && b in nodes && a.id == b.id
    ensures a == b
  {
    var i :| 0 <= i < |nodes| && nodes[i] == a;
    var j :| 0 <= j < |nodes| && nodes[j] == b;
    assert i == j;
  }

  /** A walk that leaves its start only along dependencies moves strictly towards the front of an
      order that puts dependencies first. */
  lemma {:induction false} WalkDescends(order: seq<Node>, walk: seq<Node>, i: nat, p: nat) returns (q: nat)
    requires DistinctIds(order) && DependenciesFirst(order)
    requires i < |walk| && forall k :: 0 <= k < |walk| - 1 ==> DependsOn(order, walk[k], walk[k + 1])
    requires p < |order| && order[p] == walk[0]
    ensures q < |order| && order[q] == walk[i]
    ensures i > 0 ==> q < p
  {
    if i == 0 {
      q := p;
    } else {
      var q' := WalkDescends(order, walk, i - 1, p);
      assert DependsOn(order, walk[i - 1], walk[i - 1 + 1]);
      assert walk[i].id in SelectedDeps(Selected(order), order[q']);
      assert walk[i].id in Selected(order[..q']);
      var m :| m in order[..q'] && m.id == walk[i].id;
      SameId(order, m, walk[i]);
      q :| 0 <= q < q' && order[q] == m;
    }
  }

  /** An order with dependencies first exists only for an acyclic selection. */
  lemma OrderedIsAcyclic(order: seq<Node>)
    requires DistinctIds(order) && DependenciesFirst(order)
    ensures Acyclic(order)
  {
    forall walk ensures !IsCycle(order, walk) {
      if IsCycle(order, walk) {
        assert DependsOn(order, walk[0], walk[0 + 1]);
        var p :| 0 <= p < |order| && order[p] == walk[0];
        var q := WalkDescends(order, walk, |walk| - 1, p);
        assert false;
      }
    }
  }

  lemma AcyclicPermutation(a: seq<Node>, b: seq<Node>)
    requires Acyclic(a) && forall n :: n in b ==> n in a
    ensures Acyclic(b)
  {
    forall walk ensures !IsCycle(b, walk) {
      if IsCycle(b, walk) {
        forall i | 0 <= i < |walk| - 1 ensures DependsOn(a, walk[i], walk[i + 1]) {
          assert DependsOn(b, walk[i], walk[i + 1]);
        }
        assert IsCycle(a, walk);
      }
    }
  }

  ghost predicate IsWalk(nodes: seq<Node>, stuck: set<Node>, walk: seq<Node>) {
    && (forall i :: 0 <= i < |walk| ==> walk[i] in stuck)
    && forall i :: 0 <= i < |walk| - 1 ==> DependsOn(nodes, walk[i], walk[i + 1])
  }

  /** `a` waits for another of the stuck nodes. */
  ghost predicate Waits(nodes: seq<Node>, stuck: set<Node>, a: Node) {
    a in nodes && exists b :: b in stuck && DependsOn(nodes, a, b)
  }

  ghost predicate AllWait(nodes: seq<Node>, stuck: set<Node>) {
    forall a {:trigger Waits(nodes, stuck, a)} :: a in stuck ==> Waits(nodes, stuck, a)
  }

  /** Among nodes that each wait for another of them, walks of any length exist. */
  lemma {:induction false} LongWalk(nodes: seq<Node>, stuck: set<Node>, length: nat) returns (walk: seq<Node>)
    requires stuck != {} && length >= 1
    requires AllWait(nodes, stuck)
    ensures |walk| == length && IsWalk(nodes, stuck, walk)
  {
    if length == 1 {
      var a :| a in stuck;
      walk := [a];
    } else {
      var shorter := LongWalk(nodes, stuck, length - 1);
      assert Waits(nodes, stuck, shorter[|shorter| - 1]);
      var b :| b in stuck && DependsOn(nodes, shorter[|shorter| - 1], b);
      walk := shorter + [b];
    }
  }

  lemma {:induction false} Pigeonhole(walk: seq<Node>, holes: set<Node>) returns (i: nat, j: nat)
    requires |walk| > |holes|
    requires forall k :: 0 <= k < |walk| ==> walk[k] in holes
    ensures i < j < |walk| && walk[i] == walk[j]
  {
    var last := |walk| - 1;
    if k :| 0 <= k < last && walk[k] == walk[last] {
      i, j := k, last;
    } else {
      i, j := Pigeonhole(walk[..last], holes - {walk[last]});
    }
  }

  /** When every remaining node waits for a remaining node, the selection has a cycle. */
  lemma StuckIsCyclic(nodes: seq<Node>, stuck: set<Node>)
    requires stuck != {}
    requires AllWait(nodes, stuck)
    ensures !Acyclic(nodes)
  {
    var walk := LongWalk(nodes, stuck, |stuck| + 1);
    var i, j := Pigeonhole(walk, stuck);
    var loop := walk[i..j + 1];
    forall k | 0 <= k < |loop| - 1 ensures DependsOn(nodes, loop[k], loop[k + 1]) {
      assert DependsOn(nodes, walk[i + k], walk[i + k + 1]);
    }
    assert IsCycle(nodes, loop);
  }

  // ---------------------------------------------------------------- the algorithm

  /** dict.fromkeys: the distinct members in first-occurrence order. */
  function Unique(s: seq<string>): (u: seq<string>)
    ensures forall x :: x in u <==> x in s
    ensures forall i, j :: 0 <= i < j < |u| ==> u[i] != u[j]
  {
    if |s| == 0 then []
    else
      var rest := Unique(s[..|s| - 1]);
      if s[|s| - 1] in rest then rest else rest + [s[|s| - 1]]
  }

  /** The duplicate test of the source: as many dictionary entries as nodes. */
  lemma {:induction false} SizeTellsDuplicates(nodes: seq<Node>)
    ensures |Selected(nodes)| <= |nodes|
    ensures |Selected(nodes)| == |nodes| <==> DistinctIds(nodes)
  {
    if |nodes| > 0 {
      var last := nodes[|nodes| - 1];
      var front := nodes[..|nodes| - 1];
      assert nodes == front + [last];
      SizeTellsDuplicates(front);
      assert Selected(nodes) == Selected(front) + {last.id};
      if last.id in Selected(front) {
        assert Selected(nodes) == Selected(front);
        var m :| m in front && m.id == last.id;
        var i :| 0 <= i < |front| && front[i] == m;
        assert nodes[i].id == nodes[|nodes| - 1].id;
      } else {
        forall i, j | 0 <= i < j < |nodes| && DistinctIds(front) ensures nodes[i].id != nodes[j].id {
          assert nodes[i] in front;
          if j < |front| {
            assert front[i].id != front[j].id;
          }
        }
        if DistinctIds(nodes) {
          forall i, j | 0 <= i < j < |front| ensures front[i].id != front[j].id {
            assert nodes[i].id != nodes[j].id;
          }
        }
      }
    }
  }

  /** The entries of `dependents` after the dependencies `deps` of `n` have been recorded. */
  ghost predicate Recorded(before: map<string, seq<string>>, after: map<string, seq<string>>,
                           deps: seq<string>, id: string) {
    && after.Keys == before.Keys
    && forall d :: d in before ==> after[d] == before[d] + (if d in deps then [id] else [])
  }

  lemma RecordedMore(before: map<string, seq<string>>, after: map<string, seq<string>>, deps: seq<string>, id: string,
                     dep: string)
    requires Recorded(before, after, deps, id) && dep in before && dep !in deps
    ensures Recorded(before, after[dep := after[dep] + [id]], deps + [dep], id)
  {
    assert before[dep] + [] == before[dep];
  }

  lemma RecordedSame(before: map<string, seq<string>>, after: map<string, seq<string>>, deps: seq<string>, id: string,
                     dep: string)
    requires Recorded(before, after, deps, id) && dep !in before
    ensures Recorded(before, after, deps + [dep], id)
  {
  }

  ghost function Within(deps: seq<string>, selected: set<string>): set<string> {
    set d | d in deps && d in selected
  }

  lemma WithinMore(deps: seq<string>, dep: string, selected: set<string>)
    requires dep !in deps
    ensures |Within(deps + [dep], selected)| == |Within(deps, selected)| + (if dep in selected then 1 else 0)
  {
    assert Within(deps + [dep], selected) == Within(deps, selected) + (if dep in selected then {dep} else {});
    assert dep !in Within(deps, selected);
  }

  /** The inner loop: one node's dependencies counted and recorded. */
  method CountOne(n: Node, selected: set<string>, indegree: map<string, int>, dependents: map<string, seq<string>>)
    returns (indegree': map<string, int>, dependents': map<string, seq<string>>)
    requires indegree.Keys == dependents.Keys == selected && n.id in selected && indegree[n.id] == 0
    ensures indegree' == indegree[n.id := |SelectedDeps(selected, n)|]
    ensures Recorded(dependents, dependents', n.dependsOn, n.id)
  {
    var deps := Unique(n.dependsOn);
    indegree', dependents' := indegree, dependents;
    assert Recorded(dependents, dependents', deps[..0], n.id);
    assert Within(deps[..0], selected) == {};
    for j := 0 to |deps|
      invariant indegree' == indegree[n.id := |Within(deps[..j], selected)|]
      invariant dependents'.Keys == selected
      invariant Recorded(dependents, dependents', deps[..j], n.id)
    {
      hide Recorded, Within;
      var dep := deps[j];
      assert deps[..j + 1] == deps[..j] + [dep];
      assert dep !in deps[..j];
      WithinMore(deps[..j], dep, selected);
      if dep !in selected {
        RecordedSame(dependents, dependents', deps[..j], n.id, dep);
        continue;
      }
      indegree' := indegree'[n.id := indegree'[n.id] + 1];
      RecordedMore(dependents, dependents', deps[..j], n.id, dep);
      dependents' := dependents'[dep := dependents'[dep] + [n.id]];
    }
    assert deps[..|deps|] == deps;
    assert Within(deps, selected) == SelectedDeps(selected, n);
  }

  // The graph, read off the nodes.

  lemma {:induction false} PositionAt(ids: seq<string>, i: nat)
    requires i < |ids| && forall k :: 0 <= k < i ==> ids[k] != ids[i]
    ensures PositionOf(ids, ids[i]) == i
  {
    if i > 0 {
      assert ids[0] != ids[i];
      PositionAt(ids[1..], i - 1);
    }
  }

  lemma GraphAt(nodes: seq<Node>, i: nat)
    requires DistinctIds(nodes) && i < |nodes|
    ensures nodes[i].id in GraphOf(nodes) && nodes[i].id in RankOf(nodes)
    ensures GraphOf(nodes)[nodes[i].id] == SelectedDeps(Selected(nodes), nodes[i])
    ensures RankOf(nodes)[nodes[i].id] == i
    ensures ById(nodes)[nodes[i].id] == nodes[i]
  {
    assert nodes[i] in nodes;
    assert nodes[i].id in Selected(nodes);
    SameId(nodes, ById(nodes)[nodes[i].id], nodes[i]);
    PositionAt(Ids(nodes), i);
  }

  lemma GraphShape(nodes: seq<Node>)
    requires DistinctIds(nodes)
    ensures GraphOf(nodes).Keys == RankOf(nodes).Keys == Selected(nodes)
    ensures |GraphOf(nodes)| == |nodes|
    ensures Closed(GraphOf(nodes))
    ensures forall id :: id in GraphOf(nodes) ==> id in Ids(nodes) && RankOf(nodes)[id] < |nodes|
  {
    SizeTellsDuplicates(nodes);
    assert |GraphOf(nodes)| == |GraphOf(nodes).Keys|;
    forall id | id in GraphOf(nodes) ensures id in Ids(nodes) && RankOf(nodes)[id] < |nodes| {
      var n := ById(nodes)[id];
      var i :| 0 <= i < |nodes| && nodes[i] == n;
      GraphAt(nodes, i);
      assert Ids(nodes)[i] == id;
    }
  }

  // Counting the dependencies.

  ghost predicate CountedTo(ids: seq<string>, g: Graph, i: nat, indegree: map<string, int>) {
    && indegree.Keys == g.Keys
    && (forall k :: 0 <= k < i && k < |ids| && ids[k] in g ==> indegree[ids[k]] == |g[ids[k]]|)
    && forall k :: i <= k < |ids| && ids[k] in g ==> indegree[ids[k]] == 0
  }

  ghost predicate RecordedTo(g: Graph, rank: map<string, nat>, i: nat, dependents: map<string, seq<string>>) {
    && dependents.Keys == g.Keys
    && forall u :: u in g ==> DependentsOf(g, rank, u, i, dependents[u])
  }

  lemma RecordDependents(g: Graph, rank: map<string, nat>, u: string, i: nat, list: seq<string>, w: string)
    requires DependentsOf(g, rank, u, i, list) && w in g && rank[w] == i
    requires forall id :: id in g && rank[id] == i ==> id == w
    ensures DependentsOf(g, rank, u, i + 1, if u in g[w] then list + [w] else list)
  {
  }

  lemma RecordStep(g: Graph, rank: map<string, nat>, i: nat,
                   before: map<string, seq<string>>, after: map<string, seq<string>>, deps: seq<string>, w: string)
    requires RecordedTo(g, rank, i, before) && Recorded(before, after, deps, w)
    requires w in g && rank.Keys == g.Keys && rank[w] == i && forall id :: id in g && rank[id] == i ==> id == w
    requires forall u :: u in g ==> (u in g[w] <==> u in deps)
    ensures RecordedTo(g, rank, i + 1, after)
  {
    hide DependentsOf;
    forall u | u in g ensures DependentsOf(g, rank, u, i + 1, after[u]) {
      RecordDependents(g, rank, u, i, before[u], w);
      assert before[u] + [] == before[u];
    }
  }

  lemma CountStep(ids: seq<string>, g: Graph, i: nat, indegree: map<string, int>)
    requires Distinct(ids) && i < |ids| && ids[i] in g && CountedTo(ids, g, i, indegree)
    ensures CountedTo(ids, g, i + 1, indegree[ids[i] := |g[ids[i]]|])
  {
  }

  lemma OnlyRank(nodes: seq<Node>, i: nat)
    requires DistinctIds(nodes) && i < |nodes|
    ensures forall id :: id in GraphOf(nodes) && id in RankOf(nodes) && RankOf(nodes)[id] == i ==> id == nodes[i].id
  {
    forall id | id in GraphOf(nodes) && id in RankOf(nodes) && RankOf(nodes)[id] == i ensures id == nodes[i].id {
      var k :| 0 <= k < |nodes| && nodes[k] == ById(nodes)[id];
      GraphAt(nodes, k);
    }
  }

  lemma NothingCounted(nodes: seq<Node>, indegree: map<string, int>, dependents: map<string, seq<string>>)
    requires DistinctIds(nodes)
    requires indegree == map id | id in Selected(nodes) :: 0
    requires dependents == map id | id in Selected(nodes) :: []
    ensures CountedTo(Ids(nodes), GraphOf(nodes), 0, indegree)
    ensures RecordedTo(GraphOf(nodes), RankOf(nodes), 0, dependents)
  {
    hide GraphOf, RankOf, Selected, DistinctIds, Closed, Ids;
    GraphShape(nodes);
  }

  /** One node of the first loop: its count and its reverse edges. */
  lemma CountAndRecord(nodes: seq<Node>, i: nat, indegree: map<string, int>,
                       dependents: map<string, seq<string>>, dependents': map<string, seq<string>>)
    requires DistinctIds(nodes) && i < |nodes|
    requires CountedTo(Ids(nodes), GraphOf(nodes), i, indegree)
    requires RecordedTo(GraphOf(nodes), RankOf(nodes), i, dependents)
    requires Recorded(dependents, dependents', nodes[i].dependsOn, nodes[i].id)
    ensures CountedTo(Ids(nodes), GraphOf(nodes), i + 1,
                      indegree[nodes[i].id := |SelectedDeps(Selected(nodes), nodes[i])|])
    ensures RecordedTo(GraphOf(nodes), RankOf(nodes), i + 1, dependents')
  {
    hide Recorded, RecordedTo, CountedTo, GraphOf, RankOf, Closed;
    var g, rank, ids := GraphOf(nodes), RankOf(nodes), Ids(nodes);
    GraphShape(nodes);
    GraphAt(nodes, i);
    OnlyRank(nodes, i);
    assert ids[i] == nodes[i].id;
    CountStep(ids, g, i, indegree);
    RecordStep(g, rank, i, dependents, dependents', nodes[i].dependsOn, nodes[i].id);
  }

  /** The first loops of the source: counts and reverse edges. */
  method CountDependencies(nodes: seq<Node>)
    returns (indegree: map<string, int>, dependents: map<string, seq<string>>)
    requires DistinctIds(nodes)
    ensures CountedTo(Ids(nodes), GraphOf(nodes), |nodes|, indegree)
    ensures RecordedTo(GraphOf(nodes), RankOf(nodes), |nodes|, dependents)
  {
    hide DistinctIds, Recorded, RecordedTo, CountedTo, GraphOf, RankOf;
    var selected := Selected(nodes);
    indegree := map id | id in selected :: 0;
    dependents := map id | id in selected :: [];
    NothingCounted(nodes, indegree, dependents);
    for i := 0 to |nodes|
      invariant CountedTo(Ids(nodes), GraphOf(nodes), i, indegree)
      invariant RecordedTo(GraphOf(nodes), RankOf(nodes), i, dependents)
    {
      BooksAt(nodes, i, indegree, dependents);
      ghost var before, counts := dependents, indegree;
      indegree, dependents := CountOne(nodes[i], selected, indegree, dependents);
      CountAndRecord(nodes, i, counts, before, dependents);
    }
  }

  lemma BooksAt(nodes: seq<Node>, i: nat, indegree: map<string, int>, dependents: map<string, seq<string>>)
    requires DistinctIds(nodes) && i < |nodes|
    requires CountedTo(Ids(nodes), GraphOf(nodes), i, indegree)
    requires RecordedTo(GraphOf(nodes), RankOf(nodes), i, dependents)
    ensures indegree.Keys == dependents.Keys == Selected(nodes)
    ensures nodes[i].id in Selected(nodes) && indegree[nodes[i].id] == 0
  {
    GraphAt(nodes, i);
    assert Ids(nodes)[i] == nodes[i].id;
  }

  // The queue.

  lemma {:induction false} NoDependency(order: seq<string>)
    ensures LastIn(order, {}) == -1
  {
    if |order| > 0 {
      NoDependency(order[..|order| - 1]);
    }
  }

  /** Ids without dependencies, in input order, are a first-in, first-out queue. */
  lemma FreeIdsQueue(g: Graph, rank: map<string, nat>, ready: seq<string>)
    requires rank.Keys == g.Keys
    requires forall i :: 0 <= i < |ready| ==> ready[i] in g && g[ready[i]] == {}
    requires forall i, j :: 0 <= i < j < |ready| ==> rank[ready[i]] < rank[ready[j]]
    ensures Trail(g, rank, ready)
  {
    NoDependency(ready);
  }

  /** The ids below input position `n` that wait for nothing. */
  ghost predicate FreeBelow(g: Graph, rank: map<string, nat>, ready: seq<string>, n: nat) {
    && rank.Keys == g.Keys
    && (forall i :: 0 <= i < |ready| ==> ready[i] in g && g[ready[i]] == {} && rank[ready[i]] < n)
    && (forall i, j :: 0 <= i < j < |ready| ==> rank[ready[i]] < rank[ready[j]])
    && forall id :: id in g && rank[id] < n && g[id] == {} ==> id in ready
  }

  lemma FreeStep(g: Graph, rank: map<string, nat>, ready: seq<string>, n: nat, w: string)
    requires FreeBelow(g, rank, ready, n) && w in g && rank[w] == n
    requires forall id :: id in g && rank[id] == n ==> id == w
    ensures FreeBelow(g, rank, if g[w] == {} then ready + [w] else ready, n + 1)
  {
    var ready' := if g[w] == {} then ready + [w] else ready;
    forall id | id in g && rank[id] < n + 1 && g[id] == {} ensures id in ready' {
      if rank[id] == n {
        assert id == w;
      } else {
        assert id in ready;
      }
    }
  }

  lemma CountAt(nodes: seq<Node>, i: nat, indegree: map<string, int>)
    requires DistinctIds(nodes) && i < |nodes|
    requires CountedTo(Ids(nodes), GraphOf(nodes), |nodes|, indegree)
    ensures nodes[i].id in indegree && nodes[i].id in GraphOf(nodes)
    ensures indegree[nodes[i].id] == 0 <==> GraphOf(nodes)[nodes[i].id] == {}
  {
    GraphAt(nodes, i);
    assert Ids(nodes)[i] == nodes[i].id;
    var deps := GraphOf(nodes)[nodes[i].id];
    assert |deps| == 0 <==> deps == {};
  }

  lemma BooksStart(ids: seq<string>, g: Graph, rank: map<string, nat>, indegree: map<string, int>, ready: seq<string>)
    requires CountedTo(ids, g, |ids|, indegree) && FreeBelow(g, rank, ready, |ids|)
    requires forall id :: id in g && id in rank ==> id in ids && rank[id] < |ids|
    ensures Books(g, ready, g, indegree)
  {
    forall id | id in g ensures indegree[id] == |g[id]| {
      var k :| 0 <= k < |ids| && ids[k] == id;
    }
    forall id | id in g ensures id in ready <==> g[id] == {} {
      assert rank[id] < |ids|;
    }
  }

  lemma AllCounted(nodes: seq<Node>, indegree: map<string, int>, ready: seq<string>)
    requires DistinctIds(nodes)
    requires CountedTo(Ids(nodes), GraphOf(nodes), |nodes|, indegree)
    requires FreeBelow(GraphOf(nodes), RankOf(nodes), ready, |nodes|)
    ensures Books(GraphOf(nodes), ready, GraphOf(nodes), indegree)
    ensures Trail(GraphOf(nodes), RankOf(nodes), ready)
    ensures WaitsFor(GraphOf(nodes), GraphOf(nodes), Elems(ready[..0]))
  {
    hide Trail, Closed, GraphOf, RankOf, Books, CountedTo;
    GraphShape(nodes);
    FreeIdsQueue(GraphOf(nodes), RankOf(nodes), ready);
    BooksStart(Ids(nodes), GraphOf(nodes), RankOf(nodes), indegree, ready);
    assert Elems(ready[..0]) == {};
  }

  lemma FreeNext(nodes: seq<Node>, i: nat, indegree: map<string, int>, ready: seq<string>)
    requires DistinctIds(nodes) && CountedTo(Ids(nodes), GraphOf(nodes), |nodes|, indegree) && i < |nodes|
    requires FreeBelow(GraphOf(nodes), RankOf(nodes), ready, i)
    ensures nodes[i].id in indegree
    ensures FreeBelow(GraphOf(nodes), RankOf(nodes), if indegree[nodes[i].id] == 0 then ready + [nodes[i].id]
                      else ready, i + 1)
  {
    hide DistinctIds, CountedTo, FreeBelow, GraphOf, RankOf, Closed;
    CountAt(nodes, i, indegree);
    GraphAt(nodes, i);
    GraphShape(nodes);
    OnlyRank(nodes, i);
    FreeStep(GraphOf(nodes), RankOf(nodes), ready, i, nodes[i].id);
  }

  /** The queue as it starts out. */
  method InitialQueue(nodes: seq<Node>, indegree: map<string, int>) returns (ready: seq<string>)
    requires DistinctIds(nodes) && CountedTo(Ids(nodes), GraphOf(nodes), |nodes|, indegree)
    ensures FreeBelow(GraphOf(nodes), RankOf(nodes), ready, |nodes|)
  {
    hide DistinctIds, CountedTo, FreeBelow, GraphOf, RankOf;
    ready := [];
    NothingFree(nodes);
    for i := 0 to |nodes|
      invariant FreeBelow(GraphOf(nodes), RankOf(nodes), ready, i)
    {
      FreeNext(nodes, i, indegree, ready);
      if indegree[nodes[i].id] == 0 {
        ready := ready + [nodes[i].id];
      }
    }
  }

  lemma NothingFree(nodes: seq<Node>)
    requires DistinctIds(nodes)
    ensures FreeBelow(GraphOf(nodes), RankOf(nodes), [], 0)
  {
    GraphShape(nodes);
  }

  /** The inner loop: the id just taken is crossed off its dependents, and those with nothing left to
      wait for join the queue. */
  method Release(dependents: seq<string>, indegree: map<string, int>, ready: seq<string>,
                 ghost g: Graph, ghost rank: map<string, nat>, ghost trail: seq<string>, ghost p: nat,
                 ghost waiting: Graph)
    returns (indegree': map<string, int>, ready': seq<string>, ghost trail': seq<string>, ghost waiting': Graph)
    requires Closed(g) && p < |trail| && ready == trail[p + 1..]
    requires InRelease(g, rank, trail, p, |trail|, waiting, indegree, dependents, 0)
    ensures trail <= trail' && ready' == trail'[p + 1..]
    ensures InRelease(g, rank, trail', p, |trail|, waiting', indegree', dependents, |dependents|)
  {
    hide InRelease, Closed;
    indegree', ready', trail', waiting' := indegree, ready, trail, waiting;
    for k := 0 to |dependents|
      invariant trail <= trail' && ready' == trail'[p + 1..]
      invariant InRelease(g, rank, trail', p, |trail|, waiting', indegree', dependents, k)
    {
      var dependent := dependents[k];
      ReleaseStep(g, rank, trail', p, |trail|, waiting', indegree', dependents, k);
      assert trail'[p] == trail[p];
      indegree' := indegree'[dependent := indegree'[dependent] - 1];
      waiting' := waiting'[dependent := waiting'[dependent] - {trail[p]}];
      if indegree'[dependent] == 0 {
        ready' := ready' + [dependent];
        trail' := trail' + [dependent];
      }
    }
  }

  // What the finished run means.

  lemma {:induction false} DistinctBound(s: seq<string>, keys: set<string>)
    requires Distinct(s) && Elems(s) <= keys
    ensures |s| <= |keys|
    ensures |s| == |keys| ==> Elems(s) == keys
  {
    if |s| == 0 {
    } else {
      var last := s[|s| - 1];
      var front := s[..|s| - 1];
      assert s == front + [last];
      assert Elems(s) == Elems(front) + {last};
      DistinctBound(front, keys - {last});
    }
  }

  lemma TrailBound(nodes: seq<Node>, trail: seq<string>)
    requires DistinctIds(nodes) && Trail(GraphOf(nodes), RankOf(nodes), trail)
    ensures |trail| <= |nodes|
    ensures |trail| == |nodes| ==> Elems(trail) == Selected(nodes)
  {
    hide GraphOf, RankOf, LastIn, Closed;
    GraphShape(nodes);
    DistinctBound(trail, GraphOf(nodes).Keys);
  }

  ghost function LeftOver(nodes: seq<Node>, trail: seq<string>): set<Node> {
    set n | n in nodes && n.id !in trail
  }

  /** Nodes left over all wait for one another. */
  lemma LeftoversAreCyclic(nodes: seq<Node>, trail: seq<string>, waiting: Graph, indegree: map<string, int>)
    requires DistinctIds(nodes) && Trail(GraphOf(nodes), RankOf(nodes), trail)
    requires Books(GraphOf(nodes), trail, waiting, indegree)
    requires WaitsFor(GraphOf(nodes), waiting, Elems(trail))
    requires |trail| < |nodes|
    ensures !Acyclic(nodes)
  {
    hide Trail, Acyclic, Books, WaitsFor, DistinctIds, Waits, GraphOf, RankOf;
    var stuck := LeftOver(nodes, trail);
    SomeLeftOver(nodes, trail);
    var n :| n in nodes && n.id !in trail;
    assert n in stuck;
    forall n {:trigger Waits(nodes, stuck, n)} | n in stuck ensures Waits(nodes, stuck, n) {
      LeftoverWaits(nodes, trail, waiting, indegree, n);
    }
    StuckIsCyclic(nodes, stuck);
  }

  lemma SomeLeftOver(nodes: seq<Node>, trail: seq<string>)
    requires DistinctIds(nodes) && |trail| < |nodes|
    ensures exists n :: n in nodes && n.id !in trail
  {
    SizeTellsDuplicates(nodes);
    ElemsSize(trail);
    if forall n :: n in nodes ==> n.id in trail {
      assert Selected(nodes) <= Elems(trail);
      Sizes(Selected(nodes), Elems(trail));
    }
  }

  lemma Sizes(a: set<string>, b: set<string>)
    requires a <= b
    ensures |a| <= |b|
  {
    assert b == a + (b - a);
  }

  lemma {:induction false} ElemsSize(s: seq<string>)
    ensures |Elems(s)| <= |s|
  {
    if |s| > 0 {
      ElemsSize(s[..|s| - 1]);
      assert s == s[..|s| - 1] + [s[|s| - 1]];
      assert Elems(s) == Elems(s[..|s| - 1]) + {s[|s| - 1]};
    }
  }

  lemma LeftoverWaits(nodes: seq<Node>, trail: seq<string>, waiting: Graph, indegree: map<string, int>, n: Node)
    requires DistinctIds(nodes) && n in nodes && n.id !in trail
    requires Books(GraphOf(nodes), trail, waiting, indegree)
    requires WaitsFor(GraphOf(nodes), waiting, Elems(trail))
    ensures Waits(nodes, LeftOver(nodes, trail), n)
  {
    var i :| 0 <= i < |nodes| && nodes[i] == n;
    GraphAt(nodes, i);
    var d :| d in waiting[n.id];
    assert d in n.dependsOn && d in Selected(nodes) && d !in trail;
    var b :| b in nodes && b.id == d;
    assert DependsOn(nodes, n, b);
  }

  lemma {:induction false} CountsOne(s: seq<Node>, n: Node)
    requires forall i, j :: 0 <= i < j < |s| ==> s[i] != s[j]
    ensures multiset(s)[n] == if n in s then 1 else 0
  {
    if |s| > 0 {
      var front := s[..|s| - 1];
      assert s == front + [s[|s| - 1]];
      CountsOne(front, n);
    }
  }

  lemma SameNodes(a: seq<Node>, b: seq<Node>)
    requires DistinctIds(a) && DistinctIds(b) && forall n :: n in a <==> n in b
    ensures multiset(a) == multiset(b)
  {
    forall n ensures multiset(a)[n] == multiset(b)[n] {
      CountsOne(a, n);
      CountsOne(b, n);
    }
  }

  /** Members of an order whose last occurrence lies before `i` are in the prefix of that length. */
  lemma TakenBefore(order: seq<string>, deps: set<string>, i: nat)
    requires i <= |order| && deps <= Elems(order) && LastIn(order, deps) < i
    ensures deps <= Elems(order[..i])
  {
    LastInIs(order, deps);
    hide LastIn;
    forall d | d in deps ensures d in Elems(order[..i]) {
      assert d in order;
      var k :| 0 <= k < |order| && order[k] == d;
      assert order[..i][k] == d;
    }
  }

  /** Every dependency of the last id of a trail prefix lies inside the prefix. */
  lemma DependenciesInTrail(g: Graph, rank: map<string, nat>, trail: seq<string>, waiting: Graph,
                            indegree: map<string, int>, i: nat)
    requires Trail(g, rank, trail) && Books(g, trail, waiting, indegree)
    requires WaitsFor(g, waiting, Elems(trail)) && i < |trail|
    ensures trail[i] in g && g[trail[i]] <= Elems(trail[..i])
  {
    TrailInGraph(g, rank, trail);
    hide Fifo, Distinct, Before, Elems, LastIn;
    assert g[trail[i]] - Elems(trail) == waiting[trail[i]] == {};
    NothingLeft(g[trail[i]], Elems(trail));
    TakenBefore(trail, g[trail[i]], i);
  }

  lemma SelectedIsElems(nodes: seq<Node>, i: nat)
    requires i <= |nodes|
    ensures Selected(nodes[..i]) == Elems(Ids(nodes)[..i])
  {
    forall id ensures id in Selected(nodes[..i]) <==> id in Elems(Ids(nodes)[..i]) {
      if id in Ids(nodes)[..i] {
        var k :| 0 <= k < i && Ids(nodes)[k] == id;
        assert nodes[..i][k] in nodes[..i];
      }
      if id in Selected(nodes[..i]) {
        var n :| n in nodes[..i] && n.id == id;
        var k :| 0 <= k < i && nodes[k] == n;
        assert Ids(nodes)[..i][k] == id;
      }
    }
  }

  lemma DistinctBoth(nodes: seq<Node>)
    ensures DistinctIds(nodes) <==> Distinct(Ids(nodes))
  {
    var ids := Ids(nodes);
    if Distinct(ids) {
      forall i, j | 0 <= i < j < |nodes| ensures nodes[i].id != nodes[j].id {
        assert ids[i] != ids[j];
      }
    }
  }

  /** A run that took every node produced a valid order. */
  lemma CompleteOrder(nodes: seq<Node>, order: seq<Node>, waiting: Graph, indegree: map<string, int>)
    requires DistinctIds(nodes) && |order| == |nodes| && forall i :: 0 <= i < |order| ==> order[i] in nodes
    requires Trail(GraphOf(nodes), RankOf(nodes), Ids(order)) && Books(GraphOf(nodes), Ids(order), waiting, indegree)
    requires WaitsFor(GraphOf(nodes), waiting, Elems(Ids(order)))
    ensures multiset(order) == multiset(nodes)
    ensures DependenciesFirst(order) && FifoOrder(nodes, order) && Acyclic(nodes)
  {
    hide Trail, Books, WaitsFor, GraphOf, RankOf, Acyclic, IsCycle, DistinctIds, Fifo;
    assert Distinct(Ids(order)) && Fifo(GraphOf(nodes), RankOf(nodes), Ids(order)) by {
      TrailParts(GraphOf(nodes), RankOf(nodes), Ids(order));
    }
    DistinctBoth(order);
    TrailBound(nodes, Ids(order));
    SelectedIsElems(order, |order|);
    assert order[..|order|] == order && Ids(order)[..|order|] == Ids(order);
    forall n | n in nodes ensures n in order {
      assert n.id in Selected(order);
      var m :| m in order && m.id == n.id;
      SameId(nodes, m, n);
    }
    SameNodes(order, nodes);
    forall i | 0 <= i < |order| ensures SelectedDeps(Selected(order), order[i]) <= Selected(order[..i]) {
      DependenciesInTrail(GraphOf(nodes), RankOf(nodes), Ids(order), waiting, indegree, i);
      SelectedIsElems(order, i);
      var k :| 0 <= k < |nodes| && nodes[k] == order[i];
      GraphAt(nodes, k);
    }
    OrderedIsAcyclic(order);
    AcyclicPermutation(order, nodes);
  }

  lemma TrailParts(g: Graph, rank: map<string, nat>, trail: seq<string>)
    requires Trail(g, rank, trail)
    ensures Distinct(trail) && Fifo(g, rank, trail)
  {
  }

  /** What the outer loop keeps: `ordered` was taken from the front of the trail, `ready` is the rest. */
  ghost predicate Running(nodes: seq<Node>, ordered: seq<Node>, ready: seq<string>, trail: seq<string>,
                          waiting: Graph, indegree: map<string, int>) {
    && |ordered| <= |trail|
    && ready == trail[|ordered|..]
    && Ids(ordered) == trail[..|ordered|]
    && (forall i :: 0 <= i < |ordered| ==> ordered[i] in nodes)
    && Trail(GraphOf(nodes), RankOf(nodes), trail)
    && Books(GraphOf(nodes), trail, waiting, indegree)
    && WaitsFor(GraphOf(nodes), waiting, Elems(trail[..|ordered|]))
  }

  /** The front of the queue can be taken and released. */
  lemma TakeNext(nodes: seq<Node>, dependents: map<string, seq<string>>, ordered: seq<Node>, ready: seq<string>,
                 trail: seq<string>, waiting: Graph, indegree: map<string, int>)
    requires DistinctIds(nodes) && RecordedTo(GraphOf(nodes), RankOf(nodes), |nodes|, dependents)
    requires Running(nodes, ordered, ready, trail, waiting, indegree) && |ready| > 0
    ensures |ordered| < |trail| <= |nodes| && trail[|ordered|] == ready[0] && ready[1..] == trail[|ordered| + 1..]
    ensures ready[0] in dependents && ready[0] in ById(nodes)
    ensures InRelease(GraphOf(nodes), RankOf(nodes), trail, |ordered|, |trail|, waiting, indegree,
                      dependents[ready[0]], 0)
    ensures Closed(GraphOf(nodes))
  {
    hide Trail, Books, WaitsFor, GraphOf, RankOf, InRelease, Closed, DependentsOf, DistinctIds;
    GraphShape(nodes);
    TrailBound(nodes, trail);
    TrailInGraph(GraphOf(nodes), RankOf(nodes), trail);
    ReleaseStarts(GraphOf(nodes), RankOf(nodes), trail, |ordered|, waiting, indegree, dependents[ready[0]]);
  }

  lemma AfterRelease(nodes: seq<Node>, ordered: seq<Node>, ready: seq<string>, trail: seq<string>, trail': seq<string>,
                     waiting: Graph, indegree: map<string, int>, list: seq<string>)
    requires DistinctIds(nodes) && |ordered| < |trail| && trail <= trail' && ready == trail'[|ordered| + 1..]
    requires Ids(ordered) == trail[..|ordered|] && trail[|ordered|] in ById(nodes)
    requires forall i :: 0 <= i < |ordered| ==> ordered[i] in nodes
    requires InRelease(GraphOf(nodes), RankOf(nodes), trail', |ordered|, |trail|, waiting, indegree, list, |list|)
    ensures Running(nodes, ordered + [ById(nodes)[trail[|ordered|]]], ready, trail', waiting, indegree)
  {
    hide Books, WaitsFor, GraphOf, RankOf, Closed, DependentsOf, HalfCrossed, DistinctIds, Joining, Trail, Selected,
      Elems;
    GraphShape(nodes);
    ReleaseEnds(GraphOf(nodes), RankOf(nodes), trail', |ordered|, |trail|, waiting, indegree, list);
    var taken := ordered + [ById(nodes)[trail[|ordered|]]];
    assert Ids(taken) == trail'[..|ordered| + 1];
    TrailOfJoining(GraphOf(nodes), RankOf(nodes), trail', |ordered|, |trail|, |GraphOf(nodes)|);
  }

  lemma TrailOfJoining(g: Graph, rank: map<string, nat>, trail: seq<string>, p: nat, start: nat, bound: nat)
    requires Joining(g, rank, trail, p, start, bound)
    ensures Trail(g, rank, trail)
  {
  }

  lemma RunStarts(nodes: seq<Node>, ready: seq<string>, indegree: map<string, int>)
    requires DistinctIds(nodes) && CountedTo(Ids(nodes), GraphOf(nodes), |nodes|, indegree)
    requires FreeBelow(GraphOf(nodes), RankOf(nodes), ready, |nodes|)
    ensures Running(nodes, [], ready, ready, GraphOf(nodes), indegree)
    ensures |ready| <= |nodes|
  {
    hide Books, WaitsFor, GraphOf, RankOf, DistinctIds, CountedTo, FreeBelow, Trail;
    AllCounted(nodes, indegree, ready);
    TrailBound(nodes, ready);
  }

  lemma RunEnds(nodes: seq<Node>, ordered: seq<Node>, trail: seq<string>, waiting: Graph, indegree: map<string, int>)
    requires DistinctIds(nodes) && Running(nodes, ordered, [], trail, waiting, indegree)
    ensures |ordered| != |nodes| ==> !Acyclic(nodes)
    ensures |ordered| == |nodes| ==>
      && multiset(ordered) == multiset(nodes)
      && DependenciesFirst(ordered) && FifoOrder(nodes, ordered) && Acyclic(nodes)
  {
    hide Books, WaitsFor, GraphOf, RankOf, DistinctIds, Trail, Acyclic, DependenciesFirst, FifoOrder;
    assert trail[..|ordered|] == trail == Ids(ordered);
    TrailBound(nodes, trail);
    if |ordered| != |nodes| {
      LeftoversAreCyclic(nodes, trail, waiting, indegree);
    } else {
      CompleteOrder(nodes, ordered, waiting, indegree);
    }
  }

  /** Kahn's algorithm with a FIFO queue. It succeeds exactly on distinct ids without a cycle among the
      selected dependencies, and then returns the first-in, first-out order of the nodes. */
  method TopologicalNodes(nodes: seq<Node>) returns (r: Result<seq<Node>, ProjectionError>)
    ensures r == Failure(DuplicateIds) <==> !DistinctIds(nodes)
    ensures r == Failure(DependencyCycle) <==> DistinctIds(nodes) && !Acyclic(nodes)
    ensures r.Success? ==> multiset(r.value) == multiset(nodes)
    ensures r.Success? ==> DependenciesFirst(r.value) && FifoOrder(nodes, r.value)
  {
    hide Running, GraphOf, RankOf, InRelease, Closed, RecordedTo, CountedTo, FreeBelow, DistinctIds,
      Acyclic, DependenciesFirst, FifoOrder;
    var byId := ById(nodes);
    SizeTellsDuplicates(nodes);
    if |byId.Keys| != |nodes| {
      return Failure(DuplicateIds);
    }
    var indegree, dependents := CountDependencies(nodes);
    var ready := InitialQueue(nodes, indegree);
    ghost var trail, waiting := ready, GraphOf(nodes);
    var ordered: seq<Node> := [];
    RunStarts(nodes, ready, indegree);
    while |ready| > 0
      invariant Running(nodes, ordered, ready, trail, waiting, indegree)
      decreases |nodes| - |ordered|
    {
      TakeNext(nodes, dependents, ordered, ready, trail, waiting, indegree);
      ghost var before, taken := trail, ordered;
      OrderedSoFar(nodes, ordered, ready, trail, waiting, indegree);
      var nodeId := ready[0];
      ready := ready[1..];
      ordered := ordered + [byId[nodeId]];
      indegree, ready, trail, waiting :=
        Release(dependents[nodeId], indegree, ready, GraphOf(nodes), RankOf(nodes), trail, |taken|, waiting);
      AfterRelease(nodes, taken, ready, before, trail, waiting, indegree, dependents[nodeId]);
    }
    assert ready == [];
    RunEnds(nodes, ordered, trail, waiting, indegree);
    if |ordered| != |nodes| {
      return Failure(DependencyCycle);
    }
    return Success(ordered);
  }

  lemma OrderedSoFar(nodes: seq<Node>, ordered: seq<Node>, ready: seq<string>, trail: seq<string>,
                     waiting: Graph, indegree: map<string, int>)
    requires Running(nodes, ordered, ready, trail, waiting, indegree)
    ensures |ordered| <= |trail| && Ids(ordered) == trail[..|ordered|]
    ensures forall i :: 0 <= i < |ordered| ==> ordered[i] in nodes
  {
  }

  // ---------------------------------------------------------------- consequences

  lemma PermutationIds(nodes: seq<Node>, order: seq<Node>)
    requires DistinctIds(nodes) && multiset(order) == multiset(nodes)
    ensures |order| == |nodes| && DistinctIds(order) && Selected(order) == Selected(nodes)
  {
    assert |multiset(order)| == |multiset(nodes)|;
    forall n ensures n in order <==> n in nodes {
      assert n in multiset(order) <==> n in multiset(nodes);
    }
    assert Selected(order) == Selected(nodes);
    SizeTellsDuplicates(nodes);
    SizeTellsDuplicates(order);
  }

  lemma RespectsGraph(nodes: seq<Node>, order: seq<Node>)
    requires DistinctIds(nodes) && multiset(order) == multiset(nodes) && DependenciesFirst(order)
    ensures Respects(GraphOf(nodes), Ids(order))
    ensures Elems(Ids(order)) == Selected(nodes) && Distinct(Ids(order))
  {
    hide GraphOf, RankOf, DistinctIds;
    PermutationIds(nodes, order);
    DistinctBoth(order);
    SelectedIsElems(order, |order|);
    assert order[..|order|] == order && Ids(order)[..|order|] == Ids(order);
    forall i | 0 <= i < |order|
      ensures Ids(order)[i] in GraphOf(nodes) && GraphOf(nodes)[Ids(order)[i]] <= Elems(Ids(order)[..i])
    {
      assert order[i] in multiset(nodes);
      var k :| 0 <= k < |nodes| && nodes[k] == order[i];
      GraphAt(nodes, k);
      SelectedIsElems(order, i);
    }
  }

  /** `TopologicalNodes` promises one definite order: no other permutation with dependencies first
      is in first-in, first-out order. */
  lemma OrderIsUnique(nodes: seq<Node>, a: seq<Node>, b: seq<Node>)
    requires DistinctIds(nodes) && multiset(a) == multiset(nodes) && multiset(b) == multiset(nodes)
    requires DependenciesFirst(a) && FifoOrder(nodes, a)
    requires DependenciesFirst(b) && FifoOrder(nodes, b)
    ensures a == b
  {
    hide GraphOf, RankOf, DependenciesFirst, Respects, Fifo, DistinctIds;
    RespectsGraph(nodes, a);
    RespectsGraph(nodes, b);
    PermutationIds(nodes, a);
    PermutationIds(nodes, b);
    OneFifoOrder(GraphOf(nodes), RankOf(nodes), Ids(a), Ids(b));
    forall i | 0 <= i < |a| ensures a[i] == b[i] {
      assert a[i] in multiset(nodes) && b[i] in multiset(nodes);
      assert Ids(a)[i] == Ids(b)[i];
      SameId(nodes, a[i], b[i]);
    }
  }

  /** Without selected dependencies the projection keeps the input order. */
  lemma NoDependenciesKeepsInput(nodes: seq<Node>, order: seq<Node>)
    requires DistinctIds(nodes) && forall n :: n in nodes ==> SelectedDeps(Selected(nodes), n) == {}
    requires multiset(order) == multiset(nodes) && DependenciesFirst(order) && FifoOrder(nodes, order)
    ensures order == nodes
  {
    hide Before;
    var g, rank := GraphOf(nodes), RankOf(nodes);
    GraphShape(nodes);
    forall i | 0 <= i < |nodes| ensures Ids(nodes)[i] in g && g[Ids(nodes)[i]] == {} && rank[Ids(nodes)[i]] == i {
      GraphAt(nodes, i);
    }
    FreeIdsQueue(g, rank, Ids(nodes));
    TrailParts(g, rank, Ids(nodes));
    assert DependenciesFirst(nodes);
    OrderIsUnique(nodes, order, nodes);
  }

  // ---------------------------------------------------------------- the dispatcher's own check

  datatype OrderError = MissingId | DuplicateJob | LateDependency(nodeId: string, late: seq<string>)

  /** The jobs of an engagement carry a node id, possibly empty, and their dependencies. */
  ghost predicate IdsPresent(jobs: seq<Node>) {
    forall i :: 0 <= i < |jobs| ==> jobs[i].id != ""
  }

  /** The dependencies of one job that are selected but have not occurred yet, in listed order. */
  function LateDependencies(deps: seq<string>, selected: set<string>, preceding: set<string>): (late: seq<string>)
    ensures forall d :: d in late <==> d in deps && d in selected && d !in preceding
  {
    if |deps| == 0 then []
    else
      var rest := LateDependencies(deps[1..], selected, preceding);
      if deps[0] in selected && deps[0] !in preceding then [deps[0]] + rest else rest
  }

  /** Late dependencies are picked one by one, in listed order. */
  lemma {:induction false} LateInListedOrder(deps: seq<string>, dep: string, more: seq<string>, selected: set<string>,
                                             preceding: set<string>)
    ensures LateDependencies(deps + [dep] + more, selected, preceding)
         == LateDependencies(deps, selected, preceding)
            + (if dep in selected && dep !in preceding then [dep] else [])
            + LateDependencies(more, selected, preceding)
    decreases |deps|
  {
    if deps == [] {
      assert deps + [dep] + more == [dep] + more;
      LateFirst(dep, more, selected, preceding);
      NothingLate(selected, preceding);
      hide LateDependencies;
    } else {
      hide LateDependencies;
      var rest := deps[1..];
      assert deps == [deps[0]] + rest;
      LateInListedOrder(rest, dep, more, selected, preceding);
      LateFirst(deps[0], rest, selected, preceding);
      LateFirst(deps[0], rest + [dep] + more, selected, preceding);
      Regroup([deps[0]], rest, [dep], more);
      Regroup(if deps[0] in selected && deps[0] !in preceding then [deps[0]] else [],
              LateDependencies(rest, selected, preceding),
              if dep in selected && dep !in preceding then [dep] else [],
              LateDependencies(more, selected, preceding));
    }
  }

  lemma Regroup(a: seq<string>, b: seq<string>, c: seq<string>, d: seq<string>)
    ensures a + (b + c + d) == a + b + c + d
  {
  }

  lemma NothingLate(selected: set<string>, preceding: set<string>)
    ensures LateDependencies([], selected, preceding) == []
  {
  }

  lemma LateFirst(dep: string, more: seq<string>, selected: set<string>, preceding: set<string>)
    ensures LateDependencies([dep] + more, selected, preceding) ==
      (if dep in selected && dep !in preceding then [dep] else []) + LateDependencies(more, selected, preceding)
  {
    assert ([dep] + more)[1..] == more;
  }

  /** `jobs[i]` is the first job with late dependencies, and `late` are those. */
  ghost predicate FirstLate(jobs: seq<Node>, i: nat, nodeId: string, late: seq<string>) {
    && i < |jobs| && jobs[i].id == nodeId
    && late == LateDependencies(jobs[i].dependsOn, Selected(jobs), Selected(jobs[..i])) != []
    && forall k :: 0 <= k < i ==> SelectedDeps(Selected(jobs), jobs[k]) <= Selected(jobs[..k])
  }

  lemma NoneLate(jobs: seq<Node>, i: nat)
    requires i < |jobs|
    ensures LateDependencies(jobs[i].dependsOn, Selected(jobs), Selected(jobs[..i])) == []
      <==> SelectedDeps(Selected(jobs), jobs[i]) <= Selected(jobs[..i])
  {
    var late := LateDependencies(jobs[i].dependsOn, Selected(jobs), Selected(jobs[..i]));
    if late != [] {
      assert late[0] in late;
      assert late[0] in SelectedDeps(Selected(jobs), jobs[i]) && late[0] !in Selected(jobs[..i]);
    }
  }

  /** The dispatcher's check accepts exactly the job sequences with non-empty, distinct ids whose
      selected dependencies occur strictly earlier, and names the first offender otherwise. */
  method ValidateEngagementOrder(jobs: seq<Node>) returns (r: Option<OrderError>)
    ensures r == None <==> IdsPresent(jobs) && DistinctIds(jobs) && DependenciesFirst(jobs)
    ensures r == Some(MissingId) <==> !IdsPresent(jobs)
    ensures r == Some(DuplicateJob) <==> IdsPresent(jobs) && !DistinctIds(jobs)
    ensures r.Some? && r.value.LateDependency? ==> exists i :: FirstLate(jobs, i, r.value.nodeId, r.value.late)
  {
    hide DistinctIds;
    if exists i :: 0 <= i < |jobs| && jobs[i].id == "" {
      return Some(MissingId);
    }
    SizeTellsDuplicates(jobs);
    if |Selected(jobs)| != |jobs| {
      return Some(DuplicateJob);
    }
    var selected := Selected(jobs);
    var preceding: set<string> := {};
    for i := 0 to |jobs|
      invariant preceding == Selected(jobs[..i])
      invariant forall k :: 0 <= k < i ==> SelectedDeps(selected, jobs[k]) <= Selected(jobs[..k])
    {
      var late := LateDependencies(jobs[i].dependsOn, selected, preceding);
      NoneLate(jobs, i);
      if late != [] {
        assert FirstLate(jobs, i, jobs[i].id, late);
        return Some(LateDependency(jobs[i].id, late));
      }
      assert jobs[..i + 1] == jobs[..i] + [jobs[i]];
      preceding := preceding + {jobs[i].id};
    }
    return None;
  }

  /** The two agree: whatever order the projection promises, the dispatcher accepts. */
  lemma CheckerAcceptsProjection(nodes: seq<Node>, order: seq<Node>)
    requires IdsPresent(nodes) && DistinctIds(nodes)
    requires multiset(order) == multiset(nodes) && DependenciesFirst(order)
    ensures IdsPresent(order) && DistinctIds(order) && DependenciesFirst(order)
  {
    PermutationIds(nodes, order);
    forall i | 0 <= i < |order| ensures order[i].id != "" {
      assert order[i] in multiset(nodes);
    }
  }

  /** Conversely, if the dispatcher accepts some permutation of the nodes, the projection does not
      report a cycle. */
  lemma AcceptedOrderRulesOutCycle(nodes: seq<Node>, order: seq<Node>)
    requires multiset(order) == multiset(nodes) && DistinctIds(order) && DependenciesFirst(order)
    ensures DistinctIds(nodes) && Acyclic(nodes)
  {
    PermutationIds(order, nodes);
    OrderedIsAcyclic(order);
    forall n | n in nodes ensures n in order {
      assert n in multiset(nodes);
    }
    AcyclicPermutation(order, nodes);
  }
}
