/** What the loops of Kahn's algorithm keep, stated over bare ids: `g` gives each selected id its
    selected dependencies, `rank` its input position, `trail` is everything that ever became ready
    (what was taken from the queue followed by what is still in it). */
module KahnLoop {

  type Graph = map<string, set<string>>

  function Elems(s: seq<string>): set<string> {
    set x | x in s
  }

  ghost predicate Distinct(s: seq<string>) {
    forall i, j :: 0 <= i < j < |s| ==> s[i] != s[j]
  }

  /** The last position of `order` holding a member of `deps`, or -1. */
  ghost function LastIn(order: seq<string>, deps: set<string>): int {
    if |order| == 0 then -1
    else if order[|order| - 1] in deps then |order| - 1
    else LastIn(order[..|order| - 1], deps)
  }

  lemma {:induction false} LastInIs(order: seq<string>, deps: set<string>)
    ensures -1 <= LastIn(order, deps) < |order|
    ensures LastIn(order, deps) >= 0 ==> order[LastIn(order, deps)] in deps
    ensures forall i :: LastIn(order, deps) < i < |order| ==> order[i] !in deps
  {
    if |order| > 0 && order[|order| - 1] !in deps {
      LastInIs(order[..|order| - 1], deps);
    }
  }

  lemma LastInAppend(order: seq<string>, w: string, deps: set<string>)
    requires w !in deps
    ensures LastIn(order + [w], deps) == LastIn(order, deps)
  {
    assert (order + [w])[..|order|] == order;
  }

  lemma ElemsSnoc(s: seq<string>, p: nat)
    requires p < |s|
    ensures Elems(s[..p + 1]) == Elems(s[..p]) + {s[p]}
  {
    assert s[..p + 1] == s[..p] + [s[p]];
  }

  lemma TakenAt(s: seq<string>, k: nat, p: nat)
    requires Distinct(s) && k < |s| && p <= |s|
    ensures s[k] in Elems(s[..p]) <==> k < p
  {
    if s[k] in s[..p] {
      var i :| 0 <= i < p && s[i] == s[k];
      assert i == k;
    }
  }

  // ---------------------------------------------------------------- the first-in, first-out order

  /** `a` entered the queue before `b`. */
  ghost predicate Before(g: Graph, rank: map<string, nat>, order: seq<string>, a: string, b: string)
    requires a in g && b in g && rank.Keys == g.Keys
  {
    var p, q := LastIn(order, g[a]), LastIn(order, g[b]);
    p < q || (p == q && rank[a] < rank[b])
  }

  ghost predicate Fifo(g: Graph, rank: map<string, nat>, order: seq<string>) {
    && rank.Keys == g.Keys
    && (forall i :: 0 <= i < |order| ==> order[i] in g)
    && forall i, j :: 0 <= i < j < |order| ==> Before(g, rank, order, order[i], order[j])
  }

  /** Appending an id that is nobody's dependency keeps the order of the queue. */
  lemma FifoAppend(g: Graph, rank: map<string, nat>, order: seq<string>, w: string)
    requires Fifo(g, rank, order) && w in g && w !in g[w]
    requires forall i :: 0 <= i < |order| ==> w !in g[order[i]]
    requires forall i :: 0 <= i < |order| ==> Before(g, rank, order, order[i], w)
    ensures Fifo(g, rank, order + [w])
    ensures forall i :: 0 <= i < |order| ==> LastIn(order + [w], g[order[i]]) == LastIn(order, g[order[i]])
    ensures LastIn(order + [w], g[w]) == LastIn(order, g[w])
  {
    var longer := order + [w];
    LastInAppend(order, w, g[w]);
    forall i | 0 <= i < |order| ensures LastIn(longer, g[order[i]]) == LastIn(order, g[order[i]]) {
      LastInAppend(order, w, g[order[i]]);
    }
    forall i, j | 0 <= i < j < |longer| ensures Before(g, rank, longer, longer[i], longer[j]) {
      if j < |order| {
        assert Before(g, rank, order, order[i], order[j]);
      } else {
        assert Before(g, rank, order, order[i], w);
      }
    }
  }

  // ---------------------------------------------------------------- the outer loop

  /** `waiting` holds what each id still waits for, `indegree` how many that is, and the ids with
      nothing left are those of the trail. */
  ghost predicate Books(g: Graph, trail: seq<string>, waiting: Graph, indegree: map<string, int>) {
    && waiting.Keys == indegree.Keys == g.Keys
    && (forall id :: id in g ==> indegree[id] == |waiting[id]|)
    && forall id :: id in g ==> (id in trail <==> waiting[id] == {})
  }

  /** One dependency crossed off: the count goes down by one and, at zero, the id joins the trail. */
  lemma BooksStep(g: Graph, trail: seq<string>, waiting: Graph, indegree: map<string, int>, u: string, w: string)
    requires Books(g, trail, waiting, indegree) && w in g && u in waiting[w]
    ensures w !in trail && w in waiting && w in indegree
    ensures indegree[w] - 1 == |waiting[w] - {u}|
    ensures indegree[w] - 1 == 0 <==> waiting[w] - {u} == {}
    ensures Books(g, if indegree[w] - 1 == 0 then trail + [w] else trail,
                  waiting[w := waiting[w] - {u}], indegree[w := indegree[w] - 1])
  {
    var rest := waiting[w] - {u};
    assert waiting[w] == rest + {u};
    assert |rest| == 0 <==> rest == {};
  }

  ghost predicate Trail(g: Graph, rank: map<string, nat>, trail: seq<string>) {
    && Distinct(trail)
    && Fifo(g, rank, trail)
    && forall i :: 0 <= i < |trail| ==> LastIn(trail, g[trail[i]]) < i
  }

  ghost predicate Closed(g: Graph) {
    forall id :: id in g ==> g[id] <= g.Keys
  }

  /** After `done` has been crossed off everywhere. */
  ghost predicate WaitsFor(g: Graph, waiting: Graph, done: set<string>) {
    waiting.Keys == g.Keys && forall id :: id in g ==> waiting[id] == g[id] - done
  }

  // ---------------------------------------------------------------- the inner loop

  /** While `trail[p]` is crossed off: the ids of `seen` have been dealt with; those that joined the
      trail since `start` wait for nothing after `trail[p]` and have ranks below `bound`. */
  ghost predicate Joining(g: Graph, rank: map<string, nat>, trail: seq<string>, p: nat, start: nat, bound: nat) {
    && p < start <= |trail|
    && Trail(g, rank, trail)
    && (forall i :: 0 <= i < start ==> LastIn(trail, g[trail[i]]) < p)
    && forall i :: start <= i < |trail| ==> LastIn(trail, g[trail[i]]) == p && rank[trail[i]] < bound
  }

  lemma JoiningLater(g: Graph, rank: map<string, nat>, trail: seq<string>, p: nat, start: nat, bound: nat, bound': nat)
    requires Joining(g, rank, trail, p, start, bound) && bound <= bound'
    ensures Joining(g, rank, trail, p, start, bound')
  {
  }

  /** An id whose last dependency is `trail[p]` joins behind everything already there. */
  lemma Join(g: Graph, rank: map<string, nat>, trail: seq<string>, p: nat, start: nat, bound: nat, w: string)
    requires Joining(g, rank, trail, p, start, bound)
    requires w in g && w !in trail && w !in g[w] && bound <= rank[w]
    requires forall i :: 0 <= i < |trail| ==> w !in g[trail[i]]
    requires LastIn(trail, g[w]) == p
    ensures Joining(g, rank, trail + [w], p, start, rank[w] + 1)
  {
    forall i | 0 <= i < |trail| ensures Before(g, rank, trail, trail[i], w) {
    }
    FifoAppend(g, rank, trail, w);
  }

  /** When the last dependency of `w` has just been taken, it is the latest position `w` waits for,
      and nothing ready waits for `w`. */
  lemma JustFreed(g: Graph, rank: map<string, nat>, trail: seq<string>, p: nat, w: string)
    requires Closed(g) && p < |trail| && Trail(g, rank, trail)
    requires w in g && w !in trail && trail[p] in g[w] && g[w] <= Elems(trail[..p + 1])
    requires forall i :: 0 <= i < |trail| ==> g[trail[i]] <= Elems(trail[..p + 1])
    ensures w !in g[w] && forall i :: 0 <= i < |trail| ==> w !in g[trail[i]]
    ensures LastIn(trail, g[w]) == p
  {
    assert w !in Elems(trail[..p + 1]);
    var k := LastIn(trail, g[w]);
    LastInIs(trail, g[w]);
    TakenAt(trail, k, p + 1);
  }

  /** Ids whose dependencies were all taken before position `p` wait for nothing from `p` on. */
  lemma FreedEarlier(g: Graph, rank: map<string, nat>, trail: seq<string>, p: nat, id: string)
    requires p <= |trail| && Trail(g, rank, trail) && id in g && g[id] <= Elems(trail[..p])
    ensures LastIn(trail, g[id]) < p
  {
    var k := LastIn(trail, g[id]);
    LastInIs(trail, g[id]);
    if k >= 0 {
      TakenAt(trail, k, p);
    }
  }

  /** The dependents of `u` among the ids of rank below `n`, in input order. */
  ghost predicate DependentsOf(g: Graph, rank: map<string, nat>, u: string, n: nat, list: seq<string>) {
    && rank.Keys == g.Keys
    && (forall i :: 0 <= i < |list| ==> list[i] in g && u in g[list[i]])
    && (forall i, j :: 0 <= i < j < |list| ==> rank[list[i]] < rank[list[j]])
    && (forall i :: 0 <= i < |list| ==> rank[list[i]] < n)
    && forall id :: id in g && u in g[id] && rank[id] < n ==> id in list
  }

  /** The ids of `seen` have had `u` crossed off, the others not yet. */
  ghost predicate HalfCrossed(g: Graph, waiting: Graph, done: set<string>, u: string, seen: seq<string>) {
    waiting.Keys == g.Keys && forall id :: id in g ==> waiting[id] == g[id] - (if id in seen then done + {u} else done)
  }

  ghost predicate InRelease(g: Graph, rank: map<string, nat>, trail: seq<string>, p: nat, start: nat,
                            waiting: Graph, indegree: map<string, int>, list: seq<string>, k: nat) {
    && k <= |list|
    && p < |trail|
    && DependentsOf(g, rank, trail[p], |g|, list)
    && Books(g, trail, waiting, indegree)
    && HalfCrossed(g, waiting, Elems(trail[..p]), trail[p], list[..k])
    && Joining(g, rank, trail, p, start, if k < |list| then rank[list[k]] else |g|)
  }

  lemma CrossedStep(g: Graph, waiting: Graph, done: set<string>, u: string, list: seq<string>, k: nat)
    requires k < |list| && list[k] in g && list[k] !in list[..k]
    requires HalfCrossed(g, waiting, done, u, list[..k])
    ensures waiting[list[k]] == g[list[k]] - done
    ensures HalfCrossed(g, waiting[list[k] := waiting[list[k]] - {u}], done, u, list[..k + 1])
  {
    assert list[..k + 1] == list[..k] + [list[k]];
  }

  lemma NotSeenYet(g: Graph, rank: map<string, nat>, u: string, n: nat, list: seq<string>, k: nat)
    requires DependentsOf(g, rank, u, n, list) && k < |list|
    ensures list[k] in g && list[k] in rank && u in g[list[k]] && list[k] !in list[..k]
    ensures k + 1 < |list| ==> list[k + 1] in rank && rank[list[k]] < rank[list[k + 1]]
    ensures rank[list[k]] < n
  {
  }

  /** A freed dependent joins the trail. */
  lemma JoinFreed(g: Graph, rank: map<string, nat>, trail: seq<string>, p: nat, start: nat, w: string,
                  done: set<string>,
                  bound: nat)
    requires Closed(g) && w in g && w in rank && Joining(g, rank, trail, p, start, rank[w]) && rank[w] < bound
    requires w !in trail && trail[p] in g[w] && done == Elems(trail[..p]) + {trail[p]} && g[w] <= done
    requires forall i :: 0 <= i < |trail| ==> g[trail[i]] <= done
    ensures Joining(g, rank, trail + [w], p, start, bound)
  {
    ElemsSnoc(trail, p);
    JustFreed(g, rank, trail, p, w);
    Join(g, rank, trail, p, start, rank[w], w);
    JoiningLater(g, rank, trail + [w], p, start, rank[w] + 1, bound);
  }

  lemma ReadyHasAll(g: Graph, trail: seq<string>, waiting: Graph, indegree: map<string, int>, done: set<string>,
                    u: string,
                    seen: seq<string>)
    requires Books(g, trail, waiting, indegree) && HalfCrossed(g, waiting, done, u, seen)
    ensures forall i :: 0 <= i < |trail| && trail[i] in g ==> g[trail[i]] <= done + {u}
  {
    hide LastIn;
    forall i | 0 <= i < |trail| && trail[i] in g ensures g[trail[i]] <= done + {u} {
      assert waiting[trail[i]] == {};
    }
  }

  lemma InGraph(g: Graph, rank: map<string, nat>, trail: seq<string>, p: nat, start: nat, bound: nat)
    requires Joining(g, rank, trail, p, start, bound)
    ensures p < |trail| && Distinct(trail) && forall i :: 0 <= i < |trail| ==> trail[i] in g
  {
  }

  /** One turn of the inner loop. */
  lemma ReleaseStep(g: Graph, rank: map<string, nat>, trail: seq<string>, p: nat, start: nat,
                    waiting: Graph, indegree: map<string, int>, list: seq<string>, k: nat)
    requires Closed(g) && InRelease(g, rank, trail, p, start, waiting, indegree, list, k) && k < |list|
    ensures list[k] in waiting && list[k] in indegree
    ensures InRelease(g, rank, if indegree[list[k]] - 1 == 0 then trail + [list[k]] else trail, p, start,
                      waiting[list[k] := waiting[list[k]] - {trail[p]}],
                      indegree[list[k] := indegree[list[k]] - 1], list, k + 1)
  {
    hide Books, HalfCrossed, Joining, Trail, Fifo, Distinct, LastIn, Before, DependentsOf, Closed, Elems;
    var w, u, done := list[k], trail[p], Elems(trail[..p]);
    NotSeenYet(g, rank, u, |g|, list, k);
    var bound := if k + 1 < |list| then rank[list[k + 1]] else |g|;
    CrossedStep(g, waiting, done, u, list, k);
    InGraph(g, rank, trail, p, start, rank[w]);
    TakenAt(trail, p, p);
    BooksStep(g, trail, waiting, indegree, u, w);
    if indegree[w] - 1 == 0 {
      assert (trail + [w])[..p] == trail[..p];
      ReadyHasAll(g, trail, waiting, indegree, done, u, list[..k]);
      JoinFreed(g, rank, trail, p, start, w, done + {u}, bound);
    } else {
      JoiningLater(g, rank, trail, p, start, rank[w], bound);
    }
  }

  lemma ReleaseStarts(g: Graph, rank: map<string, nat>, trail: seq<string>, p: nat,
                      waiting: Graph, indegree: map<string, int>, list: seq<string>)
    requires p < |trail| && Trail(g, rank, trail) && Books(g, trail, waiting, indegree)
    requires WaitsFor(g, waiting, Elems(trail[..p])) && DependentsOf(g, rank, trail[p], |g|, list)
    ensures InRelease(g, rank, trail, p, |trail|, waiting, indegree, list, 0)
  {
    hide Fifo, LastIn, Distinct;
    assert list[..0] == [];
    assert HalfCrossed(g, waiting, Elems(trail[..p]), trail[p], []);
    ReadyTrail(g, rank, trail, p, waiting, indegree);
    forall i | 0 <= i < |trail| ensures LastIn(trail, g[trail[i]]) < p {
      FreedEarlier(g, rank, trail, p, trail[i]);
    }
  }

  lemma TrailInGraph(g: Graph, rank: map<string, nat>, trail: seq<string>)
    requires Trail(g, rank, trail)
    ensures forall i :: 0 <= i < |trail| ==> trail[i] in g
  {
  }

  lemma NothingLeft(a: set<string>, b: set<string>)
    requires a - b == {}
    ensures a <= b
  {
    forall x | x in a ensures x in b {
      assert x !in a - b;
    }
  }

  lemma ReadyTrail(g: Graph, rank: map<string, nat>, trail: seq<string>, p: nat, waiting: Graph,
                   indegree: map<string, int>)
    requires p < |trail| && Trail(g, rank, trail) && Books(g, trail, waiting, indegree)
    requires WaitsFor(g, waiting, Elems(trail[..p]))
    ensures forall i :: 0 <= i < |trail| ==> trail[i] in g && g[trail[i]] <= Elems(trail[..p])
  {
    hide Trail, Elems;
    TrailInGraph(g, rank, trail);
    forall i | 0 <= i < |trail| ensures trail[i] in g && g[trail[i]] <= Elems(trail[..p]) {
      var id := trail[i];
      assert id in trail && id in g;
      assert g[id] - Elems(trail[..p]) == waiting[id] == {};
      NothingLeft(g[id], Elems(trail[..p]));
    }
  }

  lemma ReleaseEnds(g: Graph, rank: map<string, nat>, trail: seq<string>, p: nat, start: nat,
                    waiting: Graph, indegree: map<string, int>, list: seq<string>)
    requires InRelease(g, rank, trail, p, start, waiting, indegree, list, |list|)
    requires forall id :: id in rank ==> rank[id] < |g|
    ensures WaitsFor(g, waiting, Elems(trail[..p + 1]))
  {
    hide Books, Joining;
    ElemsSnoc(trail, p);
    assert list[..|list|] == list;
    forall id | id in g ensures waiting[id] == g[id] - Elems(trail[..p + 1]) {
      if id !in list {
        assert trail[p] !in g[id];
      }
    }
  }

  // ---------------------------------------------------------------- only one such order

  lemma {:induction false} LastInPrefix(order: seq<string>, i: nat, deps: set<string>)
    requires i <= |order| && forall k :: i <= k < |order| ==> order[k] !in deps
    ensures LastIn(order, deps) == LastIn(order[..i], deps)
  {
    if i < |order| {
      assert order[..|order| - 1][..i] == order[..i];
      LastInPrefix(order[..|order| - 1], i, deps);
    } else {
      assert order[..i] == order;
    }
  }

  lemma LastInCommon(a: seq<string>, i: nat, deps: set<string>)
    requires Distinct(a) && i <= |a| && deps <= Elems(a[..i])
    ensures LastIn(a, deps) == LastIn(a[..i], deps)
  {
    forall k | i <= k < |a| ensures a[k] !in deps {
      TakenAt(a, k, i);
    }
    LastInPrefix(a, i, deps);
  }

  /** Dependencies come first. */
  ghost predicate Respects(g: Graph, order: seq<string>) {
    forall i :: 0 <= i < |order| ==> order[i] in g && g[order[i]] <= Elems(order[..i])
  }

  /** Two orders that agree so far agree on the next id. */
  lemma SameNext(g: Graph, rank: map<string, nat>, a: seq<string>, b: seq<string>, i: nat)
    requires i < |a| && i < |b| && a[..i] == b[..i]
    requires Distinct(a) && Distinct(b) && Fifo(g, rank, a) && Fifo(g, rank, b)
    requires Respects(g, a) && Respects(g, b) && a[i] in b && b[i] in a
    ensures a[i] == b[i]
  {
    hide Fifo, LastIn, Elems;
    var x, y := a[i], b[i];
    if x != y {
      var j :| 0 <= j < |a| && a[j] == y;
      var k :| 0 <= k < |b| && b[k] == x;
      forall m | 0 <= m < i ensures a[m] == b[m] {
        assert a[..i][m] == b[..i][m];
      }
      assert i < j && i < k;
      LastInCommon(a, i, g[x]);
      LastInCommon(a, i, g[y]);
      LastInCommon(b, i, g[x]);
      LastInCommon(b, i, g[y]);
      FifoAt(g, rank, a, i, j);
      FifoAt(g, rank, b, i, k);
    }
  }

  lemma FifoAt(g: Graph, rank: map<string, nat>, order: seq<string>, i: nat, j: nat)
    requires Fifo(g, rank, order) && i < j < |order|
    ensures order[i] in g && order[j] in g && rank.Keys == g.Keys
    ensures Before(g, rank, order, order[i], order[j])
  {
  }

  lemma {:induction false} SamePrefix(g: Graph, rank: map<string, nat>, a: seq<string>, b: seq<string>, i: nat)
    requires i <= |a| == |b| && Elems(a) == Elems(b)
    requires Distinct(a) && Distinct(b) && Fifo(g, rank, a) && Fifo(g, rank, b)
    requires Respects(g, a) && Respects(g, b)
    ensures a[..i] == b[..i]
  {
    hide Fifo, Distinct, Respects;
    if i > 0 {
      SamePrefix(g, rank, a, b, i - 1);
      assert a[i - 1] in Elems(b) && b[i - 1] in Elems(a);
      SameNext(g, rank, a, b, i - 1);
      assert a[..i] == a[..i - 1] + [a[i - 1]];
      assert b[..i] == b[..i - 1] + [b[i - 1]];
    }
  }

  /** The first-in, first-out order is unique. */
  lemma OneFifoOrder(g: Graph, rank: map<string, nat>, a: seq<string>, b: seq<string>)
    requires |a| == |b| && Elems(a) == Elems(b)
    requires Distinct(a) && Distinct(b) && Fifo(g, rank, a) && Fifo(g, rank, b)
    requires Respects(g, a) && Respects(g, b)
    ensures a == b
  {
    SamePrefix(g, rank, a, b, |a|);
    assert a[..|a|] == a && b[..|b|] == b;
  }
}
