/** Automatic frontier advance (scripts/runtime/heartbeat/frontier.py): pending nodes whose dependencies are
    satisfied become ready, and a ready node gets a dispatch event at most once per human readiness.

    One project is modelled; the event, job and history tables also hold rows of others. Timestamps are
    integers behind `Stamp`, which keeps the source's distinction between a missing value, one that does not
    parse and one that does. Gate tokens and the routing of an event are not part of this model. */
module Frontier {
  import opened Wrappers
  import JobQueue

  datatype Stamp = Missing | Unparseable | At(t: int)

  datatype Url = FrontierDispatch(node: string) | ManualDispatch(node: string) | OtherUrl(text: string)

  datatype Event = Event(project: string, source: string, url: Url, status: JobQueue.EventStatus, receivedAt: Stamp)

  datatype Job = Job(project: string, node: string, status: JobQueue.JobStatus, createdAt: Stamp)

  /** A line of a node's status history. */
  datatype Record = Record(project: string, node: string, kind: string, toStatus: string, ts: Stamp)

  datatype Doc = Doc(humanGate: bool, dependsOn: seq<string>)

  datatype Ledger = Ledger(project: string, optIn: bool, nodes: seq<string>, status: map<string, string>,
                           docs: map<string, Doc>, events: seq<Event>, jobs: seq<Job>, records: seq<Record>)

  function StatusOf(status: map<string, string>, node: string): string {
    if node in status then status[node] else ""
  }

  predicate PendingStatus(s: JobQueue.EventStatus) {
    s == JobQueue.Received || s == JobQueue.Claimed
  }

  predicate ActiveStatus(s: JobQueue.JobStatus) {
    s in {JobQueue.Ready, JobQueue.Running, JobQueue.AwaitingResult, JobQueue.AwaitingReview}
  }

  predicate Dispatches(e: Event, project: string, node: string) {
    e.project == project && e.url in {FrontierDispatch(node), ManualDispatch(node)}
  }

  predicate Attempts(j: Job, project: string, node: string) {
    j.project == project && j.node == node
  }

  predicate HasActiveJob(l: Ledger, node: string) {
    exists k :: 0 <= k < |l.jobs| && Attempts(l.jobs[k], l.project, node) && ActiveStatus(l.jobs[k].status)
  }

  predicate IsPendingFrontier(e: Event, project: string, node: string) {
    e.project == project && e.source == "frontier_auto" && e.url == FrontierDispatch(node) && PendingStatus(e.status)
  }

  predicate HasPendingFrontierEvent(l: Ledger, node: string) {
    exists k :: 0 <= k < |l.events| && IsPendingFrontier(l.events[k], l.project, node)
  }

  predicate HasPendingDispatch(l: Ledger, node: string) {
    exists k :: 0 <= k < |l.events| && Dispatches(l.events[k], l.project, node) && PendingStatus(l.events[k].status)
  }

  predicate HasAttemptHistory(l: Ledger, node: string) {
    || (exists k :: 0 <= k < |l.jobs| && Attempts(l.jobs[k], l.project, node))
    || (exists k :: 0 <= k < |l.events| && Dispatches(l.events[k], l.project, node))
  }

  function Injected(l: Ledger, node: string, now: int): Ledger {
    l.(events := l.events + [Event(l.project, "frontier_auto", FrontierDispatch(node), JobQueue.Received, At(now))])
  }

  predicate DependenciesSatisfied(doc: Doc, status: map<string, string>) {
    forall d :: d in doc.dependsOn ==> JobQueue.Satisfied(StatusOf(status, d))
  }

  /** A node whose file is readable, that is not human-gated and whose dependencies are satisfied. */
  predicate Unblocked(l: Ledger, status: map<string, string>, node: string) {
    node in l.docs && !l.docs[node].humanGate && DependenciesSatisfied(l.docs[node], status)
  }

  // ---------------------------------------------------------------- attempt and readiness times

  datatype Latest = NoStamp | BadStamp | LatestAt(t: int)

  function Later(latest: Latest, stamp: Stamp): Latest {
    if latest.BadStamp? || stamp.Unparseable? then BadStamp
    else if stamp.Missing? then latest
    else if latest.LatestAt? && latest.t >= stamp.t then latest
    else LatestAt(stamp.t)
  }

  function LatestOfJobs(jobs: seq<Job>, project: string, node: string): Latest {
    if jobs == [] then NoStamp
    else
      var front, last := LatestOfJobs(jobs[..|jobs| - 1], project, node), jobs[|jobs| - 1];
      if Attempts(last, project, node) then Later(front, last.createdAt) else front
  }

  /** _last_attempt_ts: the latest of the jobs, then of the dispatch events; one stamp that does not parse
      spoils the answer. */
  function LastAttempt(jobs: seq<Job>, events: seq<Event>, project: string, node: string): Latest {
    if events == [] then LatestOfJobs(jobs, project, node)
    else
      var front, last := LastAttempt(jobs, events[..|events| - 1], project, node), events[|events| - 1];
      if Dispatches(last, project, node) then Later(front, last.receivedAt) else front
  }

  predicate IsReadyRecord(r: Record, project: string, node: string) {
    r.project == project && r.node == node && r.kind == "graph" && r.toStatus == "ready" && r.ts.At?
  }

  /** _latest_human_ready_ts */
  function LatestReady(records: seq<Record>, project: string, node: string): Option<int> {
    if records == [] then None
    else
      var front, last := LatestReady(records[..|records| - 1], project, node), records[|records| - 1];
      if IsReadyRecord(last, project, node) && (front.None? || last.ts.t > front.value) then Some(last.ts.t) else front
  }

  /** _readiness_already_dispatched; `readable` is whether the history file could be loaded. */
  predicate AlreadyDispatched(l: Ledger, node: string, readable: bool) {
    if HasActiveJob(l, node) || HasPendingDispatch(l, node) then true
    else if !HasAttemptHistory(l, node) then false
    else
      var attempt := LastAttempt(l.jobs, l.events, l.project, node);
      if !attempt.LatestAt? then true
      else
        var ready := if readable then LatestReady(l.records, l.project, node) else None;
        ready.None? || ready.value <= attempt.t
  }

  // ---------------------------------------------------------------- the two passes

  predicate Advances(l: Ledger, status: map<string, string>, node: string) {
    && StatusOf(status, node) == "pending" && Unblocked(l, status, node)
    && !HasActiveJob(l, node) && !HasPendingFrontierEvent(l, node)
  }

  function Promoted(l: Ledger, node: string, now: int): Ledger {
    Injected(l.(status := l.status[node := "ready"]), node, now)
  }

  /** The loop of advance_frontier. Statuses are those read at its start; the tables are live. */
  function AdvanceLoop(l: Ledger, status: map<string, string>, nodes: seq<string>, now: int): (Ledger, seq<string>) {
    if nodes == [] then (l, [])
    else
      var (mid, moved) := AdvanceLoop(l, status, nodes[..|nodes| - 1], now);
      var node := nodes[|nodes| - 1];
      if Advances(mid, status, node) then (Promoted(mid, node, now), moved + [node]) else (mid, moved)
  }

  function Advance(l: Ledger, now: int): (Ledger, seq<string>) {
    if l.optIn then AdvanceLoop(l, l.status, l.nodes, now) else (l, [])
  }

  predicate Boots(l: Ledger, status: map<string, string>, node: string, readable: bool) {
    StatusOf(status, node) == "ready" && Unblocked(l, status, node) && !AlreadyDispatched(l, node, readable)
  }

  function EnsureLoop(l: Ledger, nodes: seq<string>, now: int, readable: bool): (Ledger, seq<string>) {
    if nodes == [] then (l, [])
    else
      var (mid, injected) := EnsureLoop(l, nodes[..|nodes| - 1], now, readable);
      var node := nodes[|nodes| - 1];
      if Boots(mid, l.status, node, readable) then (Injected(mid, node, now), injected + [node]) else (mid, injected)
  }

  function Ensure(l: Ledger, now: int, readable: bool): (Ledger, seq<string>) {
    if l.optIn then EnsureLoop(l, l.nodes, now, readable) else (l, [])
  }

  /** The graph files and the database that one heartbeat works on. */
  class Checkout {
    var ledger: Ledger

    constructor (l: Ledger)
      ensures ledger == l
    {
      ledger := l;
    }

    method AdvanceFrontier(now: int) returns (transitioned: seq<string>)
      modifies this
      ensures (ledger, transitioned) == Advance(old(ledger), now)
    {
      hide HasActiveJob, HasPendingFrontierEvent, Unblocked;
      transitioned := [];
      if !ledger.optIn {
        return;
      }
      var statusById, nodes := ledger.status, ledger.nodes;
      for i := 0 to |nodes|
        invariant (ledger, transitioned) == AdvanceLoop(old(ledger), statusById, nodes[..i], now)
      {
        assert nodes[..i + 1][..i] == nodes[..i];
        var node := nodes[i];
        if StatusOf(statusById, node) != "pending" || !Unblocked(ledger, statusById, node) {
          continue;
        }
        if HasActiveJob(ledger, node) || HasPendingFrontierEvent(ledger, node) {
          continue;
        }
        ledger := ledger.(status := ledger.status[node := "ready"]);
        ledger := Injected(ledger, node, now);
        transitioned := transitioned + [node];
      }
      assert nodes[..|nodes|] == nodes;
    }

    method EnsureReadyFrontierEvents(now: int, readable: bool) returns (injected: seq<string>)
      modifies this
      ensures (ledger, injected) == Ensure(old(ledger), now, readable)
    {
      hide AlreadyDispatched, Unblocked;
      injected := [];
      if !ledger.optIn {
        return;
      }
      var statusById, nodes := ledger.status, ledger.nodes;
      for i := 0 to |nodes|
        invariant (ledger, injected) == EnsureLoop(old(ledger), nodes[..i], now, readable)
      {
        assert nodes[..i + 1][..i] == nodes[..i];
        var node := nodes[i];
        if StatusOf(statusById, node) != "ready" || !Unblocked(ledger, statusById, node) {
          continue;
        }
        if AlreadyDispatched(ledger, node, readable) {
          continue;
        }
        ledger := Injected(ledger, node, now);
        injected := injected + [node];
      }
      assert nodes[..|nodes|] == nodes;
    }
  }

  // ---------------------------------------------------------------- what the queries mean

  /** The event is a dispatch of the node, from the frontier or by hand. */
  ghost predicate DispatchOf(e: Event, project: string, node: string) {
    e.project == project && (e.url == FrontierDispatch(node) || e.url == ManualDispatch(node))
  }

  /** A job or a dispatch event of the node carries the stamp. */
  ghost predicate HasStamp(l: Ledger, node: string, stamp: Stamp) {
    || (exists k :: 0 <= k < |l.jobs| && l.jobs[k].project == l.project && l.jobs[k].node == node
                    && l.jobs[k].createdAt == stamp)
    || (exists k :: 0 <= k < |l.events| && DispatchOf(l.events[k], l.project, node)
                    && l.events[k].receivedAt == stamp)
  }

  /** A human declared the node ready, at a time that can be read. */
  ghost predicate DeclaredReady(r: Record, project: string, node: string) {
    r.project == project && r.node == node && r.kind == "graph" && r.toStatus == "ready" && r.ts.At?
  }

  /** Nothing is under way for the node: no job in one of the four active states. */
  ghost predicate NoJobUnderWay(l: Ledger, node: string) {
    forall k :: 0 <= k < |l.jobs| && l.jobs[k].project == l.project && l.jobs[k].node == node ==>
      l.jobs[k].status !in {JobQueue.Ready, JobQueue.Running, JobQueue.AwaitingResult, JobQueue.AwaitingReview}
  }

  /** No frontier event of the node waits to be processed. */
  ghost predicate NoFrontierEventWaits(l: Ledger, node: string) {
    forall k :: 0 <= k < |l.events| && l.events[k].project == l.project && l.events[k].source == "frontier_auto"
                && l.events[k].url == FrontierDispatch(node) ==>
      l.events[k].status !in {JobQueue.Received, JobQueue.Claimed}
  }

  /** No dispatch event of the node waits to be processed. */
  ghost predicate NoDispatchWaits(l: Ledger, node: string) {
    forall k :: 0 <= k < |l.events| && DispatchOf(l.events[k], l.project, node) ==>
      l.events[k].status !in {JobQueue.Received, JobQueue.Claimed}
  }

  /** The graph lets the node start by itself: its file is readable, no human gate is on it, and what it depends on is
      complete or provisional. */
  ghost predicate GraphAllows(l: Ledger, node: string) {
    && node in l.docs && !l.docs[node].humanGate
    && forall d :: d in l.docs[node].dependsOn ==> d in l.status && l.status[d] in {"complete", "provisional"}
  }

  /** The node is pending, may start by itself, and nothing was set off for it. */
  ghost predicate Movable(l: Ledger, node: string) {
    && node in l.status && l.status[node] == "pending" && GraphAllows(l, node)
    && NoJobUnderWay(l, node) && NoFrontierEventWaits(l, node)
  }

  lemma GuardsTell(l: Ledger, node: string)
    ensures HasActiveJob(l, node) <==> !NoJobUnderWay(l, node)
    ensures HasPendingFrontierEvent(l, node) <==> !NoFrontierEventWaits(l, node)
    ensures HasPendingDispatch(l, node) <==> !NoDispatchWaits(l, node)
    ensures Unblocked(l, l.status, node) <==> GraphAllows(l, node)
  {
    assert forall e: Event :: Dispatches(e, l.project, node) <==> DispatchOf(e, l.project, node);
  }

  lemma MovesTell(l: Ledger, node: string)
    ensures Advances(l, l.status, node) <==> Movable(l, node)
  {
    GuardsTell(l, node);
    hide HasActiveJob, HasPendingFrontierEvent, NoJobUnderWay, NoFrontierEventWaits, GraphAllows, Unblocked;
  }

  lemma {:induction false} LatestOfJobsTells(jobs: seq<Job>, project: string, node: string)
    ensures var latest := LatestOfJobs(jobs, project, node);
      && (latest.BadStamp? <==>
            exists k :: 0 <= k < |jobs| && Attempts(jobs[k], project, node) && jobs[k].createdAt.Unparseable?)
      && (latest.LatestAt? ==>
            exists k :: 0 <= k < |jobs| && Attempts(jobs[k], project, node) && jobs[k].createdAt == At(latest.t))
      && (forall k :: 0 <= k < |jobs| && Attempts(jobs[k], project, node) && jobs[k].createdAt.At? ==>
            latest.BadStamp? || (latest.LatestAt? && latest.t >= jobs[k].createdAt.t))
  {
    if jobs != [] {
      var front, last := jobs[..|jobs| - 1], jobs[|jobs| - 1];
      LatestOfJobsTells(front, project, node);
      assert forall k :: 0 <= k < |front| ==> front[k] == jobs[k];
      assert last == jobs[|front|];
      hide Attempts;
    }
  }

  /** The last attempt is known exactly when no stamp of the node is unparseable and one is present; it is then
      the greatest of them. */
  lemma {:induction false} LastAttemptTells(l: Ledger, node: string)
    ensures var latest := LastAttempt(l.jobs, l.events, l.project, node);
      && (latest.BadStamp? <==> HasStamp(l, node, Unparseable))
      && (latest.LatestAt? ==> HasStamp(l, node, At(latest.t)))
      && (forall t :: HasStamp(l, node, At(t)) ==> latest.BadStamp? || (latest.LatestAt? && latest.t >= t))
    decreases |l.events|
  {
    if l.events == [] {
      LatestOfJobsTells(l.jobs, l.project, node);
    } else {
      var front, last := l.(events := l.events[..|l.events| - 1]), l.events[|l.events| - 1];
      assert Dispatches(last, l.project, node) <==> DispatchOf(last, l.project, node);
      hide Dispatches, DispatchOf;
      LastAttemptTells(front, node);
      StampsGrow(front, last, node);
      assert front.events + [last] == l.events;
      assert l == front.(events := front.events + [last]);
      hide HasStamp;
    }
  }

  lemma StampsGrow(l: Ledger, e: Event, node: string)
    ensures forall stamp :: HasStamp(l.(events := l.events + [e]), node, stamp) <==>
      HasStamp(l, node, stamp) || (DispatchOf(e, l.project, node) && e.receivedAt == stamp)
  {
    var more := l.(events := l.events + [e]);
    assert more.events[|l.events|] == e;
    assert forall k :: 0 <= k < |l.events| ==> more.events[k] == l.events[k];
    hide DispatchOf;
  }

  lemma {:induction false} LatestReadyTells(records: seq<Record>, project: string, node: string)
    ensures var latest := LatestReady(records, project, node);
      && (latest.Some? ==>
            exists k ::
              0 <= k < |records| && DeclaredReady(records[k], project, node) && records[k].ts == At(latest.value))
      && (forall k :: 0 <= k < |records| && DeclaredReady(records[k], project, node) ==>
            latest.Some? && latest.value >= records[k].ts.t)
  {
    if records != [] {
      var front, last := records[..|records| - 1], records[|records| - 1];
      LatestReadyTells(front, project, node);
      assert forall k :: 0 <= k < |front| ==> front[k] == records[k];
      assert last == records[|front|];
    }
  }

  ghost predicate StampBefore(stamp: Stamp, t: int) {
    stamp.Missing? || (stamp.At? && stamp.t < t)
  }

  /** The record declares the node ready at a time after every attempt. */
  ghost predicate AfterAllAttempts(l: Ledger, node: string, r: Record) {
    DeclaredReady(r, l.project, node) && forall stamp :: HasStamp(l, node, stamp) ==> StampBefore(stamp, r.ts.t)
  }

  /** A human declared the node ready after every attempt, and some attempt has a time. */
  ghost predicate ReassertedReady(l: Ledger, node: string) {
    && (exists t :: HasStamp(l, node, At(t)))
    && exists k :: 0 <= k < |l.records| && AfterAllAttempts(l, node, l.records[k])
  }

  /** A ready node may be dispatched: nothing is under way or waits for it, and either nothing was ever tried or a human
      re-asserted `ready` after the last attempt. */
  ghost predicate MayStart(l: Ledger, node: string, readable: bool) {
    && NoJobUnderWay(l, node) && NoDispatchWaits(l, node)
    && (|| (&& (forall k :: 0 <= k < |l.jobs| ==> l.jobs[k].project != l.project || l.jobs[k].node != node)
            && forall k :: 0 <= k < |l.events| ==> !DispatchOf(l.events[k], l.project, node))
        || (readable && ReassertedReady(l, node)))
  }

  lemma RedispatchNeedsReassertion(l: Ledger, node: string, readable: bool)
    ensures !AlreadyDispatched(l, node, readable) <==> MayStart(l, node, readable)
  {
    GuardsTell(l, node);
    RedispatchCondition(l, node, readable);
    assert HasAttemptHistory(l, node) <==>
      || !(forall k :: 0 <= k < |l.jobs| ==> l.jobs[k].project != l.project || l.jobs[k].node != node)
      || !(forall k :: 0 <= k < |l.events| ==> !DispatchOf(l.events[k], l.project, node)) by {
      assert forall e: Event :: Dispatches(e, l.project, node) <==> DispatchOf(e, l.project, node);
    }
    hide AlreadyDispatched, HasActiveJob, HasPendingDispatch, HasAttemptHistory, ReassertedReady, NoJobUnderWay,
         NoDispatchWaits;
  }

  lemma RedispatchCondition(l: Ledger, node: string, readable: bool)
    ensures !AlreadyDispatched(l, node, readable) <==>
      && !HasActiveJob(l, node) && !HasPendingDispatch(l, node)
      && (!HasAttemptHistory(l, node) || (readable && ReassertedReady(l, node)))
  {
    hide HasActiveJob, HasPendingDispatch, HasAttemptHistory, HasStamp;
    LastAttemptTells(l, node);
    LatestReadyTells(l.records, l.project, node);
    var attempt := LastAttempt(l.jobs, l.events, l.project, node);
    var ready := LatestReady(l.records, l.project, node);
    hide LastAttempt, LatestReady;
    if attempt.LatestAt? && ready.Some? && ready.value > attempt.t {
      var k :| 0 <= k < |l.records| && DeclaredReady(l.records[k], l.project, node)
        && l.records[k].ts == At(ready.value);
      forall stamp | HasStamp(l, node, stamp)
        ensures StampBefore(stamp, l.records[k].ts.t)
      {
        if stamp.At? {
          assert HasStamp(l, node, At(stamp.t));
        }
      }
      assert AfterAllAttempts(l, node, l.records[k]);
    }
    if ReassertedReady(l, node) {
      var t :| HasStamp(l, node, At(t));
      var k :| 0 <= k < |l.records| && AfterAllAttempts(l, node, l.records[k]);
      var r := l.records[k];
      assert !StampBefore(Unparseable, r.ts.t);
      assert attempt.LatestAt?;
      assert StampBefore(At(attempt.t), r.ts.t);
    }
  }

  // ---------------------------------------------------------------- what one pass does

  predicate NoDuplicates(nodes: seq<string>) {
    forall i, j :: 0 <= i < j < |nodes| ==> nodes[i] != nodes[j]
  }

  /** One fresh pending event per node, in order. */
  function EventsFor(project: string, nodes: seq<string>, now: int): seq<Event> {
    seq(|nodes|, i requires 0 <= i < |nodes| =>
      Event(project, "frontier_auto", FrontierDispatch(nodes[i]), JobQueue.Received, At(now)))
  }

  lemma EventsForStep(project: string, nodes: seq<string>, node: string, now: int)
    ensures EventsFor(project, nodes + [node], now)
         == EventsFor(project, nodes, now)
            + [Event(project, "frontier_auto", FrontierDispatch(node), JobQueue.Received, At(now))]
  {
  }

  lemma PendingAfterInjections(l: Ledger, nodes: seq<string>, now: int, node: string)
    ensures var more := l.(events := l.events + EventsFor(l.project, nodes, now));
      && (HasPendingFrontierEvent(more, node) <==> HasPendingFrontierEvent(l, node) || node in nodes)
      && (HasPendingDispatch(more, node) <==> HasPendingDispatch(l, node) || node in nodes)
  {
    var added := EventsFor(l.project, nodes, now);
    var more := l.(events := l.events + added);
    assert forall k :: 0 <= k < |l.events| ==> more.events[k] == l.events[k];
    assert forall k :: |l.events| <= k < |more.events| ==> more.events[k] == added[k - |l.events|];
    if node in nodes {
      var i :| 0 <= i < |nodes| && nodes[i] == node;
      assert more.events[|l.events| + i] == added[i];
    }
  }

  lemma HasMember(nodes: seq<string>)
    ensures nodes == [] || nodes[0] in nodes
  {
  }

  lemma {:induction false} AdvanceLoopTells(l: Ledger, nodes: seq<string>, now: int)
    ensures var (after, moved) := AdvanceLoop(l, l.status, nodes, now);
      && after == l.(status := after.status, events := l.events + EventsFor(l.project, moved, now))
      && (moved == [] ==> after == l) && NoDuplicates(moved)
      && (forall n :: StatusOf(after.status, n) == if n in moved then "ready" else StatusOf(l.status, n))
      && (forall n :: n in moved <==> n in nodes && Advances(l, l.status, n))
  {
    hide HasActiveJob, HasPendingFrontierEvent, DependenciesSatisfied;
    if nodes != [] {
      var front, node := nodes[..|nodes| - 1], nodes[|nodes| - 1];
      AdvanceLoopTells(l, front, now);
      var (mid, moved) := AdvanceLoop(l, l.status, front, now);
      PendingAfterInjections(l, moved, now, node);
      PendingIgnoresStatus(l.(events := mid.events), mid, node);
      ActiveIgnoresEvents(l, mid, node);
      EventsForStep(l.project, moved, node, now);
      assert nodes == front + [node];
      assert Advances(mid, l.status, node) <==> Advances(l, l.status, node) && node !in moved;
    }
  }

  lemma PendingIgnoresStatus(a: Ledger, b: Ledger, node: string)
    requires a.events == b.events && a.project == b.project
    ensures HasPendingFrontierEvent(a, node) == HasPendingFrontierEvent(b, node)
    ensures HasPendingDispatch(a, node) == HasPendingDispatch(b, node)
  {
  }

  lemma ActiveIgnoresEvents(a: Ledger, b: Ledger, node: string)
    requires a.jobs == b.jobs && a.project == b.project
    ensures HasActiveJob(a, node) == HasActiveJob(b, node)
  {
  }

  ghost predicate OccursBefore(nodes: seq<string>, b: nat, n: string) {
    exists a :: 0 <= a < b && a < |nodes| && nodes[a] == n
  }

  /** The picked nodes stand in the order in which the list names them. */
  ghost predicate InListOrder(picked: seq<string>, nodes: seq<string>) {
    forall i, j, b :: 0 <= i < j < |picked| && 0 <= b < |nodes| && nodes[b] == picked[j] ==>
      OccursBefore(nodes, b, picked[i])
  }

  lemma OrderStep(picked: seq<string>, front: seq<string>, node: string)
    requires InListOrder(picked, front) && forall n :: n in picked ==> n in front
    ensures InListOrder(picked, front + [node])
    ensures node !in front ==> InListOrder(picked + [node], front + [node])
  {
    var nodes := front + [node];
    forall i, j, b | 0 <= i < j < |picked| && 0 <= b < |nodes| && nodes[b] == picked[j]
      ensures OccursBefore(nodes, b, picked[i])
    {
      assert picked[j] in picked;
      var c :| 0 <= c < |front| && front[c] == picked[j];
      var d := if b < |front| then b else c;
      assert OccursBefore(front, d, picked[i]) by { assert front[d] == picked[j]; }
      OccursLater(front, d, node, b, picked[i]);
    }
    if node !in front {
      var longer := picked + [node];
      forall i, j, b | 0 <= i < j < |longer| && 0 <= b < |nodes| && nodes[b] == longer[j]
        ensures OccursBefore(nodes, b, longer[i])
      {
        assert longer[i] == picked[i] && picked[i] in picked;
        if j == |picked| {
          assert b == |front|;
          var a :| 0 <= a < |front| && front[a] == picked[i];
          assert nodes[a] == longer[i];
        } else {
          assert longer[j] == picked[j];
          assert nodes[b] == picked[j];
        }
      }
    }
  }

  lemma OccursLater(front: seq<string>, d: nat, node: string, b: nat, n: string)
    requires OccursBefore(front, d, n) && d <= b
    ensures OccursBefore(front + [node], b, n)
  {
    var a :| 0 <= a < d && a < |front| && front[a] == n;
    assert (front + [node])[a] == n;
  }

  lemma {:induction false} AdvanceOrder(l: Ledger, nodes: seq<string>, now: int)
    ensures InListOrder(AdvanceLoop(l, l.status, nodes, now).1, nodes)
  {
    if nodes != [] {
      var front, node := nodes[..|nodes| - 1], nodes[|nodes| - 1];
      AdvanceOrder(l, front, now);
      AdvanceLoopTells(l, front, now);
      AdvanceLoopTells(l, nodes, now);
      var picked, longer := AdvanceLoop(l, l.status, front, now).1, AdvanceLoop(l, l.status, nodes, now).1;
      OrderStep(picked, front, node);
      assert nodes == front + [node];
      hide Advances, Promoted, InListOrder;
      PickedAnew(picked, longer, node);
    }
  }

  lemma PickedAnew(picked: seq<string>, longer: seq<string>, node: string)
    requires longer == picked || longer == picked + [node]
    requires NoDuplicates(longer)
    ensures longer != picked ==> node !in picked && node in longer
  {
    if longer != picked {
      assert longer[|picked|] == node;
      assert forall i :: 0 <= i < |picked| ==> longer[i] == picked[i];
    }
  }

  lemma {:induction false} EnsureOrder(l: Ledger, nodes: seq<string>, now: int, readable: bool)
    ensures InListOrder(EnsureLoop(l, nodes, now, readable).1, nodes)
  {
    if nodes != [] {
      var front, node := nodes[..|nodes| - 1], nodes[|nodes| - 1];
      EnsureOrder(l, front, now, readable);
      EnsureLoopTells(l, front, now, readable);
      EnsureLoopTells(l, nodes, now, readable);
      var picked, longer := EnsureLoop(l, front, now, readable).1, EnsureLoop(l, nodes, now, readable).1;
      OrderStep(picked, front, node);
      assert nodes == front + [node];
      hide Boots, InListOrder;
      PickedAnew(picked, longer, node);
    }
  }

  lemma {:induction false} AdvanceKeepsKeys(l: Ledger, status: map<string, string>, nodes: seq<string>, now: int)
    requires status.Keys == l.status.Keys
    ensures AdvanceLoop(l, status, nodes, now).0.status.Keys == l.status.Keys
  {
    if nodes != [] {
      AdvanceKeepsKeys(l, status, nodes[..|nodes| - 1], now);
      hide HasActiveJob, HasPendingFrontierEvent, Unblocked;
    }
  }

  lemma AdvanceFollows(l: Ledger, now: int)
    ensures var (after, moved) := Advance(l, now);
      && after == l.(status := after.status, events := l.events + EventsFor(l.project, moved, now))
      && NoDuplicates(moved) && after.status.Keys == l.status.Keys
      && (forall n :: StatusOf(after.status, n) == if n in moved then "ready" else StatusOf(l.status, n))
      && (forall n :: n in moved <==> l.optIn && n in l.nodes && Advances(l, l.status, n))
  {
    hide Advances;
    AdvanceLoopTells(l, l.nodes, now);
    AdvanceKeepsKeys(l, l.status, l.nodes, now);
    assert l.events + EventsFor(l.project, [], now) == l.events;
  }

  /** advance_frontier moves exactly the listed nodes of an opted-in project that were pending, not human-gated,
      satisfied in their dependencies and idle when it started. Each is moved once, to ready and with one fresh event,
      and nothing else is touched. */
  lemma AdvanceTells(l: Ledger, now: int)
    ensures var (after, moved) := Advance(l, now);
      && (forall n :: n in moved <==>
            && l.optIn && n in l.nodes && n in l.status && l.status[n] == "pending"
            && n in l.docs && !l.docs[n].humanGate
            && (forall d :: d in l.docs[n].dependsOn ==> d in l.status && l.status[d] in {"complete", "provisional"})
            && NoJobUnderWay(l, n) && NoFrontierEventWaits(l, n))
      && NoDuplicates(moved) && InListOrder(moved, l.nodes)
      && after.(status := l.status, events := l.events) == l && after.status.Keys == l.status.Keys
      && (forall n :: n in l.status ==> after.status[n] == if n in moved then "ready" else l.status[n])
      && |after.events| == |l.events| + |moved| && after.events[..|l.events|] == l.events
      && forall i :: 0 <= i < |moved| ==>
           after.events[|l.events| + i] ==
             Event(l.project, "frontier_auto", FrontierDispatch(moved[i]), JobQueue.Received, At(now))
  {
    AdvanceFollows(l, now);
    AdvanceOrder(l, l.nodes, now);
    assert InListOrder(Advance(l, now).1, l.nodes);
    hide Advance, InListOrder;
    forall n ensures Advances(l, l.status, n) <==> Movable(l, n) {
      MovesTell(l, n);
    }
    hide Advances, NoJobUnderWay, NoFrontierEventWaits;
    var after := Advance(l, now).0;
    assert forall n :: n in l.status ==> StatusOf(after.status, n) == after.status[n];
  }

  /** A second call right after the first does nothing. */
  lemma AdvanceTwice(l: Ledger, now: int, again: int)
    ensures var after := Advance(l, now).0; Advance(after, again) == (after, [])
  {
    AdvanceFollows(l, now);
    var (after, moved) := Advance(l, now);
    forall n | Advances(after, after.status, n)
      ensures !l.optIn || n !in l.nodes
    {
      hide HasActiveJob, HasPendingFrontierEvent, HasPendingDispatch;
      PendingAfterInjections(l, moved, now, n);
      PendingIgnoresStatus(l.(events := after.events), after, n);
      ActiveIgnoresEvents(l, after, n);
      assert forall d :: JobQueue.Satisfied(StatusOf(after.status, d)) ==> JobQueue.Satisfied(StatusOf(l.status, d));
      assert n !in moved;
      assert Advances(l, l.status, n);
    }
    if l.optIn {
      hide Advances;
      AdvanceLoopTells(after, after.nodes, again);
      var second := AdvanceLoop(after, after.status, after.nodes, again).1;
      HasMember(second);
    }
  }

  lemma InjectionSettlesOnlyItsNode(l: Ledger, m: string, now: int, node: string, readable: bool)
    ensures AlreadyDispatched(Injected(l, m, now), node, readable) <==>
      m == node || AlreadyDispatched(l, node, readable)
  {
    var more := Injected(l, m, now);
    var added := more.events[|l.events|];
    assert more.events[..|more.events| - 1] == l.events;
    assert forall k :: 0 <= k < |l.events| ==> more.events[k] == l.events[k];
    if m == node {
      assert Dispatches(added, l.project, node) && PendingStatus(added.status);
      assert HasPendingDispatch(more, node);
    } else {
      assert !Dispatches(added, l.project, node);
      hide Dispatches, Attempts, LatestReady;
      assert HasPendingDispatch(more, node) == HasPendingDispatch(l, node);
      assert HasAttemptHistory(more, node) == HasAttemptHistory(l, node);
      assert HasActiveJob(more, node) == HasActiveJob(l, node);
      assert LastAttempt(more.jobs, more.events, l.project, node) == LastAttempt(l.jobs, l.events, l.project, node);
    }
  }

  lemma {:induction false} EnsureLoopTells(l: Ledger, nodes: seq<string>, now: int, readable: bool)
    ensures var (after, injected) := EnsureLoop(l, nodes, now, readable);
      && after == l.(events := l.events + EventsFor(l.project, injected, now)) && NoDuplicates(injected)
      && (forall n :: n in injected <==> n in nodes && Boots(l, l.status, n, readable))
      && (forall n :: AlreadyDispatched(after, n, readable) <==> n in injected || AlreadyDispatched(l, n, readable))
  {
    hide AlreadyDispatched, DependenciesSatisfied;
    if nodes == [] {
      assert l.events + EventsFor(l.project, [], now) == l.events;
    } else {
      var front, node := nodes[..|nodes| - 1], nodes[|nodes| - 1];
      EnsureLoopTells(l, front, now, readable);
      var (mid, injected) := EnsureLoop(l, front, now, readable);
      EventsForStep(l.project, injected, node, now);
      assert nodes == front + [node];
      forall n
        ensures AlreadyDispatched(Injected(mid, node, now), n, readable) <==>
          node == n || AlreadyDispatched(mid, n, readable)
      {
        InjectionSettlesOnlyItsNode(mid, node, now, n, readable);
      }
      assert Boots(mid, l.status, node, readable) <==> Boots(l, l.status, node, readable) && node !in injected;
    }
  }

  lemma EnsureFollows(l: Ledger, now: int, readable: bool)
    ensures var (after, injected) := Ensure(l, now, readable);
      && after == l.(events := l.events + EventsFor(l.project, injected, now)) && NoDuplicates(injected)
      && (forall n :: n in injected <==> l.optIn && n in l.nodes && Boots(l, l.status, n, readable))
  {
    hide Boots;
    EnsureLoopTells(l, l.nodes, now, readable);
    assert l.events + EventsFor(l.project, [], now) == l.events;
  }

  lemma BootsTell(l: Ledger, node: string, readable: bool)
    ensures Boots(l, l.status, node, readable) <==>
      && node in l.status && l.status[node] == "ready" && GraphAllows(l, node) && MayStart(l, node, readable)
  {
    GuardsTell(l, node);
    RedispatchNeedsReassertion(l, node, readable);
    hide AlreadyDispatched, MayStart, GraphAllows, Unblocked;
  }

  /** ensure_ready_frontier_events gives one event each to exactly the listed nodes of an opted-in project that are
      ready, not human-gated, satisfied in their dependencies and not yet dispatched for their readiness. It touches
      nothing else. */
  lemma EnsureTells(l: Ledger, now: int, readable: bool)
    ensures var (after, injected) := Ensure(l, now, readable);
      && (forall n :: n in injected <==>
            && l.optIn && n in l.nodes && n in l.status && l.status[n] == "ready"
            && n in l.docs && !l.docs[n].humanGate
            && (forall d :: d in l.docs[n].dependsOn ==> d in l.status && l.status[d] in {"complete", "provisional"})
            && MayStart(l, n, readable))
      && NoDuplicates(injected) && InListOrder(injected, l.nodes) && after.(events := l.events) == l
      && |after.events| == |l.events| + |injected| && after.events[..|l.events|] == l.events
      && forall i :: 0 <= i < |injected| ==>
           after.events[|l.events| + i] ==
             Event(l.project, "frontier_auto", FrontierDispatch(injected[i]), JobQueue.Received, At(now))
  {
    EnsureFollows(l, now, readable);
    EnsureOrder(l, l.nodes, now, readable);
    assert InListOrder(Ensure(l, now, readable).1, l.nodes);
    hide Ensure, InListOrder;
    forall n
      ensures Boots(l, l.status, n, readable) <==>
        && n in l.status && l.status[n] == "ready" && GraphAllows(l, n) && MayStart(l, n, readable)
    {
      BootsTell(l, n, readable);
    }
    hide Boots, MayStart;
  }

  /** A second call right after the first does nothing. */
  lemma EnsureTwice(l: Ledger, now: int, again: int, readable: bool)
    ensures var after := Ensure(l, now, readable).0; Ensure(after, again, readable) == (after, [])
  {
    if l.optIn {
      EnsureLoopTells(l, l.nodes, now, readable);
      var (after, injected) := EnsureLoop(l, l.nodes, now, readable);
      hide AlreadyDispatched;
      EnsureLoopTells(after, after.nodes, again, readable);
      var second := EnsureLoop(after, after.nodes, again, readable).1;
      HasMember(second);
      assert after.events + EventsFor(l.project, [], again) == after.events;
    }
  }

  /** No node gets an event from both passes at the start of a heartbeat, and both leave it `ready`. */
  lemma PassesAreDisjoint(l: Ledger, now: int, later: int, readable: bool)
    ensures var (mid, moved) := Advance(l, now);
      var (_, injected) := Ensure(mid, later, readable);
      && NoDuplicates(moved) && NoDuplicates(injected) && (forall n :: !(n in moved && n in injected))
      && forall n :: n in moved || n in injected ==> StatusOf(Ensure(mid, later, readable).0.status, n) == "ready"
  {
    AdvanceFollows(l, now);
    var (mid, moved) := Advance(l, now);
    EnsureFollows(mid, later, readable);
    forall n | n in moved
      ensures n !in Ensure(mid, later, readable).1
    {
      hide HasActiveJob, HasPendingDispatch;
      PendingAfterInjections(l, moved, now, n);
      PendingIgnoresStatus(l.(events := mid.events), mid, n);
      assert AlreadyDispatched(mid, n, readable);
    }
  }

  /** What a heartbeat itself writes to the graph between its frontier passes: provisional marks. */
  predicate OnlyMarksProvisional(before: map<string, string>, after: map<string, string>) {
    forall n :: n in before.Keys + after.Keys ==>
      StatusOf(after, n) == StatusOf(before, n) || StatusOf(after, n) == "provisional"
  }

  /** A whole heartbeat: the two passes, then claims, jobs and evaluations by anybody, which leave some ledger
      `late`, then the frontier pass at its end. A node dispatched by one of the first passes is dispatched again by
      the last one exactly when it was put back to `pending` meanwhile and could start afresh; a heartbeat that
      only marks nodes provisional never does that, so each node gets at most one event from it. */
  lemma OneEventPerHeartbeat(l: Ledger, now: int, later: int, readable: bool, late: Ledger, end: int)
    ensures var (mid, moved) := Advance(l, now);
      var (dispatched, injected) := Ensure(mid, later, readable);
      var again := Advance(late, end).1;
      && NoDuplicates(moved) && NoDuplicates(injected) && NoDuplicates(again)
      && (forall n :: !(n in moved && n in injected))
      && (forall n :: (n in moved || n in injected) && n in again <==>
            && (n in moved || n in injected) && late.optIn && n in late.nodes && Movable(late, n))
      && (OnlyMarksProvisional(dispatched.status, late.status) ==>
            forall n :: n in moved || n in injected ==> n !in again)
  {
    PassesAreDisjoint(l, now, later, readable);
    AdvanceFollows(late, end);
    forall n ensures Advances(late, late.status, n) <==> Movable(late, n) {
      MovesTell(late, n);
    }
    hide Ensure, Advance, Unblocked, HasActiveJob, HasPendingFrontierEvent, NoJobUnderWay, NoFrontierEventWaits,
         GraphAllows;
    var dispatched := Ensure(Advance(l, now).0, later, readable).0;
    forall n | OnlyMarksProvisional(dispatched.status, late.status) && StatusOf(dispatched.status, n) == "ready"
      ensures StatusOf(late.status, n) != "pending"
    {
      assert n in dispatched.status.Keys + late.status.Keys;
    }
  }

  // ---------------------------------------------------------------- whole runs

  /** A heartbeat pass, a consumer of events, a job writer, or an operator. */
  datatype Step =
    | Tick(now: int)
    | AdvancePass
    | EnsurePass(readable: bool)
    | AddEvent(event: Event)
    | SetEventStatus(k: nat, eventStatus: JobQueue.EventStatus)
    | AddJob(job: Job)
    | SetJobStatus(k: nat, jobStatus: JobQueue.JobStatus)
    | AddRecord(record: Record)
    | EditGraph(optIn: bool, nodes: seq<string>, status: map<string, string>, docs: map<string, Doc>)

  datatype Boot = Boot(count: nat, last: int)

  /** `boots` counts the events that ensure_ready_frontier_events injected for each node. */
  datatype World = World(ledger: Ledger, clock: int, boots: map<string, Boot>)

  function Count(boots: map<string, Boot>, node: string): nat {
    if node in boots then boots[node].count else 0
  }

  function Noted(boots: map<string, Boot>, injected: seq<string>, now: int): map<string, Boot> {
    if injected == [] then boots
    else
      var b, node := Noted(boots, injected[..|injected| - 1], now), injected[|injected| - 1];
      b[node := Boot(Count(b, node) + 1, now)]
  }

  /** The clock does not run backwards, and no one signs readiness for a time to come. */
  ghost predicate Enabled(w: World, step: Step) {
    match step
    case Tick(now) => now >= w.clock
    case SetEventStatus(k, _) => k < |w.ledger.events|
    case SetJobStatus(k, _) => k < |w.ledger.jobs|
    case AddRecord(r) => r.ts.At? ==> r.ts.t <= w.clock
    case _ => true
  }

  ghost function Apply(w: World, step: Step): World
    requires Enabled(w, step)
  {
    var l := w.ledger;
    match step
    case Tick(now) => w.(clock := now)
    case AdvancePass => w.(ledger := Advance(l, w.clock).0)
    case EnsurePass(readable) =>
      var (after, injected) := Ensure(l, w.clock, readable);
      w.(ledger := after, boots := Noted(w.boots, injected, w.clock))
    case AddEvent(e) => w.(ledger := l.(events := l.events + [e]))
    case SetEventStatus(k, status) => w.(ledger := l.(events := l.events[k := l.events[k].(status := status)]))
    case AddJob(j) => w.(ledger := l.(jobs := l.jobs + [j]))
    case SetJobStatus(k, status) => w.(ledger := l.(jobs := l.jobs[k := l.jobs[k].(status := status)]))
    case AddRecord(r) => w.(ledger := l.(records := l.records + [r]))
    case EditGraph(optIn, nodes, status, docs) =>
      w.(ledger := l.(optIn := optIn, nodes := nodes, status := status, docs := docs))
  }

  ghost predicate Start(w: World) {
    && w.boots == map[]
    && forall k :: 0 <= k < |w.ledger.records| && w.ledger.records[k].ts.At? ==> w.ledger.records[k].ts.t <= w.clock
  }

  ghost predicate Reach(from: World, steps: seq<Step>, to: World)
    decreases |steps|
  {
    if steps == [] then from == to
    else Enabled(from, steps[0]) && Reach(Apply(from, steps[0]), steps[1..], to)
  }

  /** Human graph-ready records of a node signed up to a time. */
  ghost function ReadyUpTo(records: seq<Record>, project: string, node: string, t: int): nat {
    if records == [] then 0
    else
      var last := records[|records| - 1];
      ReadyUpTo(records[..|records| - 1], project, node, t)
      + (if DeclaredReady(last, project, node) && last.ts.t <= t then 1 else 0)
  }

  ghost function ReadyRecords(records: seq<Record>, project: string, node: string): nat {
    if records == [] then 0
    else
      ReadyRecords(records[..|records| - 1], project, node)
      + (if DeclaredReady(records[|records| - 1], project, node) then 1 else 0)
  }

  lemma {:induction false} UpToIsSome(records: seq<Record>, project: string, node: string, t: int)
    ensures ReadyUpTo(records, project, node, t) <= ReadyRecords(records, project, node)
  {
    if records != [] {
      UpToIsSome(records[..|records| - 1], project, node, t);
    }
  }

  lemma {:induction false} LaterRecordCounts(records: seq<Record>, project: string, node: string, s: int, t: int,
                                             k: nat)
    requires s <= t
    ensures ReadyUpTo(records, project, node, s) <= ReadyUpTo(records, project, node, t)
    ensures k < |records| && DeclaredReady(records[k], project, node) && s < records[k].ts.t <= t ==>
      ReadyUpTo(records, project, node, s) < ReadyUpTo(records, project, node, t)
  {
    if records != [] {
      LaterRecordCounts(records[..|records| - 1], project, node, s, t, k);
    }
  }

  lemma {:induction false} NotedTells(boots: map<string, Boot>, injected: seq<string>, now: int)
    requires NoDuplicates(injected)
    ensures forall n :: n in Noted(boots, injected, now) <==> n in boots || n in injected
    ensures forall n :: n in Noted(boots, injected, now) ==>
      Noted(boots, injected, now)[n] == if n in injected then Boot(Count(boots, n) + 1, now) else boots[n]
  {
    if injected != [] {
      NotedTells(boots, injected[..|injected| - 1], now);
    }
  }

  predicate IsBootEvent(e: Event, project: string, node: string, t: int) {
    Dispatches(e, project, node) && e.receivedAt == At(t)
  }

  /** The last bootstrap of a node left its event, and every bootstrap but the first had a record of its own. */
  ghost predicate BootHeld(l: Ledger, clock: int, node: string, b: Boot) {
    && b.last <= clock
    && (exists k :: 0 <= k < |l.events| && IsBootEvent(l.events[k], l.project, node, b.last))
    && b.count <= 1 + ReadyUpTo(l.records, l.project, node, b.last)
  }

  ghost predicate Inv(w: World) {
    && (forall k :: 0 <= k < |w.ledger.records| && w.ledger.records[k].ts.At? ==> w.ledger.records[k].ts.t <= w.clock)
    && (forall n :: n in w.boots ==> BootHeld(w.ledger, w.clock, n, w.boots[n]))
  }

  lemma BootStays(l: Ledger, clock: int, after: Ledger, later: int, node: string, b: Boot)
    requires BootHeld(l, clock, node, b) && clock <= later && after.project == l.project
    requires |l.events| <= |after.events|
    requires forall k :: 0 <= k < |l.events| ==> after.events[k].(status := l.events[k].status) == l.events[k]
    requires after.records == l.records || exists r :: after.records == l.records + [r]
    ensures BootHeld(after, later, node, b)
  {
    var k :| 0 <= k < |l.events| && IsBootEvent(l.events[k], l.project, node, b.last);
    assert after.events[k].(status := l.events[k].status) == l.events[k];
    assert IsBootEvent(after.events[k], l.project, node, b.last);
    if after.records != l.records {
      assert after.records[..|after.records| - 1] == l.records;
    }
  }

  /** A node that was bootstrapped before is bootstrapped again only for a record of its own. */
  lemma RebootHasRecord(l: Ledger, clock: int, node: string, b: Boot, readable: bool)
    requires BootHeld(l, clock, node, b) && !AlreadyDispatched(l, node, readable)
    requires forall k :: 0 <= k < |l.records| && l.records[k].ts.At? ==> l.records[k].ts.t <= clock
    ensures b.count + 1 <= 1 + ReadyUpTo(l.records, l.project, node, clock)
  {
    RedispatchCondition(l, node, readable);
    var k :| 0 <= k < |l.events| && IsBootEvent(l.events[k], l.project, node, b.last);
    assert HasStamp(l, node, At(b.last)) && HasAttemptHistory(l, node);
    hide HasStamp, AlreadyDispatched, ReadyUpTo, HasActiveJob, HasPendingDispatch, HasAttemptHistory;
    var i :| 0 <= i < |l.records| && AfterAllAttempts(l, node, l.records[i]);
    assert StampBefore(At(b.last), l.records[i].ts.t);
    LaterRecordCounts(l.records, l.project, node, b.last, clock, i);
  }

  lemma FreshBootHeld(l: Ledger, injected: seq<string>, clock: int, node: string, count: nat)
    requires node in injected && count <= 1 + ReadyUpTo(l.records, l.project, node, clock)
    ensures BootHeld(l.(events := l.events + EventsFor(l.project, injected, clock)), clock, node, Boot(count, clock))
  {
    var after := l.(events := l.events + EventsFor(l.project, injected, clock));
    var i :| 0 <= i < |injected| && injected[i] == node;
    assert IsBootEvent(after.events[|l.events| + i], l.project, node, clock);
  }

  lemma EnsureKeepsInv(w: World, readable: bool)
    requires Inv(w)
    ensures Inv(Apply(w, EnsurePass(readable)))
  {
    hide AlreadyDispatched, Unblocked, BootHeld, Ensure, Noted, EventsFor;
    var l := w.ledger;
    var (after, injected) := Ensure(l, w.clock, readable);
    EnsureFollows(l, w.clock, readable);
    NotedTells(w.boots, injected, w.clock);
    var boots := Noted(w.boots, injected, w.clock);
    forall n | n in boots
      ensures BootHeld(after, w.clock, n, boots[n])
    {
      if n in injected {
        if n in w.boots {
          RebootHasRecord(l, w.clock, n, w.boots[n], readable);
        }
        FreshBootHeld(l, injected, w.clock, n, Count(w.boots, n) + 1);
      } else {
        BootStays(l, w.clock, after, w.clock, n, w.boots[n]);
      }
    }
  }

  lemma InvStep(w: World, step: Step)
    requires Inv(w) && Enabled(w, step)
    ensures Inv(Apply(w, step))
  {
    if step.EnsurePass? {
      EnsureKeepsInv(w, step.readable);
    } else {
      var next := Apply(w, step);
      AdvanceFollows(w.ledger, w.clock);
      hide BootHeld, Advance, Ensure, Advances, EventsFor;
      forall n | n in w.boots
        ensures BootHeld(next.ledger, next.clock, n, w.boots[n])
      {
        BootStays(w.ledger, w.clock, next.ledger, next.clock, n, w.boots[n]);
      }
    }
  }

  lemma {:induction false} InvAlong(from: World, steps: seq<Step>, to: World)
    requires Inv(from) && Reach(from, steps, to)
    ensures Inv(to)
    decreases |steps|
  {
    hide Inv, Enabled, Apply;
    if steps != [] {
      InvStep(from, steps[0]);
      InvAlong(Apply(from, steps[0]), steps[1..], to);
    }
  }

  /** Neither pass touches a node that is human-gated at that moment: it gets no event and keeps its status. */
  lemma GatedIsLeftAlone(w: World, step: Step, node: string)
    requires step.AdvancePass? || step.EnsurePass?
    requires node in w.ledger.docs && w.ledger.docs[node].humanGate
    ensures var l, after := w.ledger, Apply(w, step).ledger;
      && after.docs == l.docs && |after.events| >= |l.events| && after.events[..|l.events|] == l.events
      && (forall k :: |l.events| <= k < |after.events| ==>
            after.events[k].url != FrontierDispatch(node) && after.events[k].url != ManualDispatch(node))
      && (node in after.status <==> node in l.status)
      && (node in l.status ==> after.status[node] == l.status[node])
  {
    var l := w.ledger;
    if step.AdvancePass? {
      AdvanceTells(l, w.clock);
      var (after, moved) := Advance(l, w.clock);
      hide Advance, NoJobUnderWay, NoFrontierEventWaits;
      forall k | |l.events| <= k < |after.events|
        ensures after.events[k].url != FrontierDispatch(node) && after.events[k].url != ManualDispatch(node)
      {
        var i := k - |l.events|;
        assert moved[i] in moved && after.events[|l.events| + i] == after.events[k];
      }
    } else {
      EnsureTells(l, w.clock, step.readable);
      var (after, injected) := Ensure(l, w.clock, step.readable);
      hide Ensure, MayStart;
      forall k | |l.events| <= k < |after.events|
        ensures after.events[k].url != FrontierDispatch(node) && after.events[k].url != ManualDispatch(node)
      {
        var i := k - |l.events|;
        assert injected[i] in injected && after.events[|l.events| + i] == after.events[k];
      }
    }
  }

  /** The gate is on whenever the graph is edited, and nobody else writes a dispatch event for the node. */
  predicate LeavesGated(step: Step, node: string) {
    match step
    case AddEvent(e) => e.url != FrontierDispatch(node)
    case EditGraph(_, _, _, docs) => node in docs && docs[node].humanGate
    case _ => true
  }

  /** Over every run in which a node stays human-gated, the frontier never dispatches it. */
  lemma {:induction false} GatedIsNeverDispatched(from: World, steps: seq<Step>, to: World, node: string)
    requires Reach(from, steps, to) && node in from.ledger.docs && from.ledger.docs[node].humanGate
    requires forall i :: 0 <= i < |steps| ==> LeavesGated(steps[i], node)
    ensures |to.ledger.events| >= |from.ledger.events|
    ensures forall k :: |from.ledger.events| <= k < |to.ledger.events| ==>
      to.ledger.events[k].url != FrontierDispatch(node)
    decreases |steps|
  {
    if steps != [] {
      var mid := Apply(from, steps[0]);
      GatedStep(from, steps[0], node);
      GatedIsNeverDispatched(mid, steps[1..], to, node);
      UrlsStay(mid, steps[1..], to);
      hide Reach, Apply, LeavesGated;
    }
  }

  lemma GatedStep(w: World, step: Step, node: string)
    requires Enabled(w, step) && node in w.ledger.docs && w.ledger.docs[node].humanGate && LeavesGated(step, node)
    ensures var after := Apply(w, step).ledger;
      && node in after.docs && after.docs[node].humanGate && |after.events| >= |w.ledger.events|
      && forall k :: |w.ledger.events| <= k < |after.events| ==> after.events[k].url != FrontierDispatch(node)
  {
    if step.AdvancePass? || step.EnsurePass? {
      GatedIsLeftAlone(w, step, node);
    }
    hide Advance, Ensure;
  }

  /** No step takes an event away or redirects it. */
  lemma {:induction false} UrlsStay(from: World, steps: seq<Step>, to: World)
    requires Reach(from, steps, to)
    ensures |to.ledger.events| >= |from.ledger.events|
    ensures forall k :: 0 <= k < |from.ledger.events| ==> to.ledger.events[k].url == from.ledger.events[k].url
    decreases |steps|
  {
    if steps != [] {
      var mid := Apply(from, steps[0]);
      AdvanceFollows(from.ledger, from.clock);
      if steps[0].EnsurePass? {
        EnsureFollows(from.ledger, from.clock, steps[0].readable);
      }
      hide Advance, Ensure, Advances, Boots;
      UrlsStay(mid, steps[1..], to);
    }
  }

  /** Over every run, ensure_ready_frontier_events dispatches a node at most once more often than a human
      declared it ready, whatever becomes of its events and jobs. */
  lemma BootsAreBounded(from: World, steps: seq<Step>, to: World, node: string)
    requires Start(from) && Reach(from, steps, to)
    ensures Count(to.boots, node) <= 1 + ReadyRecords(to.ledger.records, to.ledger.project, node)
  {
    hide Reach, ReadyUpTo, ReadyRecords;
    InvAlong(from, steps, to);
    if node in to.boots {
      UpToIsSome(to.ledger.records, to.ledger.project, node, to.boots[node].last);
    }
  }
}
