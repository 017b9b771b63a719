/** The job queue that heartbeats share (scripts/runtime/heartbeat/runner.py, state_recorder.py and
    scope_checker.py): claims, reservations under a write lock, dispatch outcomes, stale recovery, review
    drain and retries.

    Each transaction or compare-and-set update is one step. Rows of `jobs` and `sessions` are in insertion
    order. What a heartbeat learned outside the transaction is an argument of the step. */
module JobQueue {
  import opened Wrappers
  import opened Text

  datatype EventStatus = Received | Claimed | Classified | ScopeBlocked | Mapped | Ignored

  datatype Event = Event(status: EventStatus, claimedAt: Option<int>, project: Option<string>, repo: string)

  datatype JobStatus =
    Ready | Running | AwaitingResult | AwaitingReview | Accepted | Deferred | Failed | Cancelled | Complete

  datatype Job = Job(id: string, project: string, node: string, repo: string, status: JobStatus, queueState: JobStatus,
                     attempt: nat, maxAttempts: nat, plumbing: nat, base: Option<string>)

  datatype SessionState = Dispatching | Dispatched | Mediated | DispatchFailed

  /** `reserved` is the session id the row was inserted with, `handle` what it is now. */
  datatype Session = Session(id: string, jobId: string, state: SessionState, attemptIndex: nat, reserved: string,
                             handle: string, base: Option<string>, updatedAt: int)

  datatype Db = Db(events: map<string, Event>, jobs: seq<Job>, sessions: seq<Session>)

  const DEFAULT_PLUMBING_RETRY_BUDGET := 3

  // ---------------------------------------------------------------- rows

  predicate Consumes(job: Job) {
    job.status in {Ready, Running} || job.queueState in {Ready, Running}
  }

  predicate InFlight(job: Job) {
    job.status in {Ready, Running, AwaitingResult, AwaitingReview}
  }

  /** _active_job_count */
  function ActiveJobCount(jobs: seq<Job>, repo: string): nat {
    if jobs == [] then 0
    else ActiveJobCount(jobs[..|jobs| - 1], repo)
         + (if jobs[|jobs| - 1].repo == repo && Consumes(jobs[|jobs| - 1]) then 1 else 0)
  }

  /** The count is the number of the repo's rows that are ready or running in either status column. */
  lemma {:induction false} ActiveJobsAreCounted(jobs: seq<Job>, repo: string)
    ensures ActiveJobCount(jobs, repo) ==
      |set i | 0 <= i < |jobs| && jobs[i].repo == repo
               && (jobs[i].status in {Ready, Running} || jobs[i].queueState in {Ready, Running})|
  {
    var counts := (job: Job) =>
      job.repo == repo && (job.status in {Ready, Running} || job.queueState in {Ready, Running});
    CountIsSize(jobs, repo, counts);
    hide ActiveJobCount;
    assert (set i | 0 <= i < |jobs| && jobs[i].repo == repo
                    && (jobs[i].status in {Ready, Running} || jobs[i].queueState in {Ready, Running}))
           == set i | 0 <= i < |jobs| && counts(jobs[i]);
  }

  lemma {:induction false} CountIsSize(jobs: seq<Job>, repo: string, counts: Job -> bool)
    requires forall job :: counts(job) <==> job.repo == repo && Consumes(job)
    ensures ActiveJobCount(jobs, repo) == |set i | 0 <= i < |jobs| && counts(jobs[i])|
  {
    if jobs != [] {
      CountIsSize(jobs[..|jobs| - 1], repo, counts);
      SizeStep(jobs, counts);
      hide Consumes;
    }
  }

  lemma SizeStep(jobs: seq<Job>, counts: Job -> bool)
    requires jobs != []
    ensures var front, last := jobs[..|jobs| - 1], jobs[|jobs| - 1];
      |set i | 0 <= i < |jobs| && counts(jobs[i])|
      == |set i | 0 <= i < |front| && counts(front[i])| + if counts(last) then 1 else 0
  {
    var front, n := jobs[..|jobs| - 1], |jobs| - 1;
    assert (set i | 0 <= i < |jobs| && counts(jobs[i]))
           == (set i | 0 <= i < |front| && counts(front[i])) + if counts(jobs[n]) then {n} else {};
  }

  /** UPDATE jobs SET status = s, queue_state = s WHERE job_id = id */
  function SetStatus(jobs: seq<Job>, id: string, s: JobStatus): seq<Job> {
    seq(|jobs|, i requires 0 <= i < |jobs| =>
      if jobs[i].id == id then jobs[i].(status := s, queueState := s) else jobs[i])
  }

  /** The row of a session id, or -1. */
  function SessionIndex(sessions: seq<Session>, id: string): (k: int)
    ensures -1 <= k < |sessions| && (k >= 0 ==> sessions[k].id == id)
    ensures k < 0 ==> forall i :: 0 <= i < |sessions| ==> sessions[i].id != id
  {
    if sessions == [] then -1
    else if sessions[|sessions| - 1].id == id then |sessions| - 1
    else SessionIndex(sessions[..|sessions| - 1], id)
  }

  function JobIndex(jobs: seq<Job>, id: string): (k: int)
    ensures -1 <= k < |jobs| && (k >= 0 ==> jobs[k].id == id)
    ensures k < 0 ==> forall i :: 0 <= i < |jobs| ==> jobs[i].id != id
  {
    if jobs == [] then -1
    else if jobs[|jobs| - 1].id == id then |jobs| - 1
    else JobIndex(jobs[..|jobs| - 1], id)
  }

  // ---------------------------------------------------------------- check_scope

  datatype Scope = Safe | ActiveJob(jobId: string) | Unsatisfied(dependency: string, status: string)

  predicate Satisfied(status: string) {
    status == "complete" || status == "provisional"
  }

  function FirstInFlight(jobs: seq<Job>, project: string, node: string): (k: int)
    ensures -1 <= k < |jobs|
    ensures k >= 0 ==> InFlight(jobs[k]) && jobs[k].project == project && jobs[k].node == node
    ensures k < 0 ==> forall i :: 0 <= i < |jobs| ==>
      !(InFlight(jobs[i]) && jobs[i].project == project && jobs[i].node == node)
  {
    if jobs == [] then -1
    else
      var k := FirstInFlight(jobs[..|jobs| - 1], project, node);
      var last := jobs[|jobs| - 1];
      if k >= 0 then k
      else if InFlight(last) && last.project == project && last.node == node then |jobs| - 1
      else -1
  }

  function FirstUnsatisfied(deps: seq<string>, graph: map<string, string>): Scope {
    if deps == [] then Safe
    else
      var status := if deps[0] in graph then graph[deps[0]] else "unknown";
      if !Satisfied(status) then Unsatisfied(deps[0], status) else FirstUnsatisfied(deps[1..], graph)
  }

  function CheckScope(jobs: seq<Job>, project: string, node: string, deps: seq<string>, graph: map<string, string>)
    : Scope
  {
    var k := FirstInFlight(jobs, project, node);
    if k >= 0 then ActiveJob(jobs[k].id) else FirstUnsatisfied(deps, graph)
  }

  /** The scope is safe exactly when no job of the node is in flight and every dependency is satisfied. */
  lemma ScopeSafe(jobs: seq<Job>, project: string, node: string, deps: seq<string>, graph: map<string, string>)
    ensures CheckScope(jobs, project, node, deps, graph) == Safe <==>
      && (forall i :: 0 <= i < |jobs| && jobs[i].project == project && jobs[i].node == node ==>
            jobs[i].status !in {Ready, Running, AwaitingResult, AwaitingReview})
      && (forall d :: d in deps ==> d in graph && graph[d] in {"complete", "provisional"})
  {
    DependenciesSatisfied(deps, graph);
  }

  lemma {:induction false} DependenciesSatisfied(deps: seq<string>, graph: map<string, string>)
    ensures var scope := FirstUnsatisfied(deps, graph);
      && (scope == Safe <==> forall d :: d in deps ==> d in graph && graph[d] in {"complete", "provisional"})
      && !scope.ActiveJob?
      && (scope.Unsatisfied? ==>
            exists i :: 0 <= i < |deps| && deps[i] == scope.dependency
              && (if deps[i] in graph then scope.status == graph[deps[i]] else scope.status == "unknown")
              && scope.status !in {"complete", "provisional"}
              && forall k :: 0 <= k < i ==> deps[k] in graph && graph[deps[k]] in {"complete", "provisional"})
  {
    if deps != [] {
      var rest := deps[1..];
      DependenciesSatisfied(rest, graph);
      assert deps == [deps[0]] + rest;
      var status := if deps[0] in graph then graph[deps[0]] else "unknown";
      var scope := FirstUnsatisfied(deps, graph);
      if status in {"complete", "provisional"} && scope.Unsatisfied? {
        var i :| 0 <= i < |rest| && rest[i] == scope.dependency
          && (if rest[i] in graph then scope.status == graph[rest[i]] else scope.status == "unknown")
          && forall k :: 0 <= k < i ==> rest[k] in graph && graph[rest[k]] in {"complete", "provisional"};
        assert deps[i + 1] == rest[i];
        assert forall k :: 1 <= k < i + 1 ==> deps[k] == rest[k - 1];
      }
    }
  }

  /** An unsafe scope names the first job in flight, or else the first dependency that is not satisfied and what the
      graph says about it. */
  lemma ScopeTells(jobs: seq<Job>, project: string, node: string, deps: seq<string>, graph: map<string, string>)
    ensures var scope := CheckScope(jobs, project, node, deps, graph);
      && (scope.ActiveJob? ==>
            exists k :: 0 <= k < |jobs| && scope.jobId == jobs[k].id
              && jobs[k].project == project && jobs[k].node == node
              && jobs[k].status in {Ready, Running, AwaitingResult, AwaitingReview}
              && forall i :: 0 <= i < k && jobs[i].project == project && jobs[i].node == node ==>
                   jobs[i].status !in {Ready, Running, AwaitingResult, AwaitingReview})
      && (scope.Unsatisfied? ==>
            && (forall i :: 0 <= i < |jobs| && jobs[i].project == project && jobs[i].node == node ==>
                  jobs[i].status !in {Ready, Running, AwaitingResult, AwaitingReview})
            && exists i :: 0 <= i < |deps| && deps[i] == scope.dependency
                 && (if deps[i] in graph then scope.status == graph[deps[i]] else scope.status == "unknown")
                 && scope.status !in {"complete", "provisional"}
                 && forall k :: 0 <= k < i ==> deps[k] in graph && graph[deps[k]] in {"complete", "provisional"})
  {
    FirstInFlightIsFirst(jobs, project, node);
    DependenciesSatisfied(deps, graph);
  }

  lemma {:induction false} FirstInFlightIsFirst(jobs: seq<Job>, project: string, node: string)
    ensures forall i :: 0 <= i < FirstInFlight(jobs, project, node) ==>
      !(InFlight(jobs[i]) && jobs[i].project == project && jobs[i].node == node)
  {
    if jobs != [] {
      FirstInFlightIsFirst(jobs[..|jobs| - 1], project, node);
    }
  }

  // ---------------------------------------------------------------- planning

  /** The compare-and-set that claims an event; `cutoff` is 30 minutes before the heartbeat's clock. */
  predicate Claimable(event: Event, cutoff: int) {
    event.status == Received || (event.status == Claimed && event.claimedAt.Some? && event.claimedAt.value < cutoff)
  }

  function Claim(db: Db, id: string, project: string, now: int, cutoff: int): (Db, bool) {
    if id in db.events && Claimable(db.events[id], cutoff) then
      var claimed := db.events[id].(status := Claimed, claimedAt := Some(now), project := Some(project));
      (db.(events := db.events[id := claimed]), true)
    else (db, false)
  }

  function SetEvent(events: map<string, Event>, id: string, status: EventStatus): map<string, Event> {
    if id in events then events[id := events[id].(status := status)] else events
  }

  /** A deferred event goes back, unless somebody moved it on. */
  function Unclaim(events: map<string, Event>, id: string): map<string, Event> {
    if id in events && events[id].status == Claimed
    then events[id := events[id].(status := Received, claimedAt := None)] else events
  }

  /** What one heartbeat wants to reserve: the node with its dependencies, the ids to insert, the base. */
  datatype Plan = Plan(event: string, project: string, repo: string, node: string, deps: seq<string>,
                       graph: map<string, string>, jobId: string, sessionId: string, base: Option<string>, now: int)

  datatype Reservation = Reserved | OverCapacity(active: nat) | Blocked(scope: Scope)

  function AttemptId(jobId: string, attempt: nat): string {
    jobId + ":attempt:" + Decimal(attempt)
  }

  /** The transaction that checks capacity and scope and inserts job and session. */
  function Reserve(db: Db, plan: Plan, cap: Option<nat>): (Db, Reservation) {
    var active := ActiveJobCount(db.jobs, plan.repo);
    if cap.Some? && active >= cap.value then
      (db.(events := Unclaim(db.events, plan.event)), OverCapacity(active))
    else
      var scope := CheckScope(db.jobs, plan.project, plan.node, plan.deps, plan.graph);
      if scope != Safe then (db.(events := SetEvent(db.events, plan.event, ScopeBlocked)), Blocked(scope))
      else
        (Db(SetEvent(db.events, plan.event, Classified),
            db.jobs + [Job(plan.jobId, plan.project, plan.node, plan.repo, Ready, Ready, 0, 3, 0, plan.base)],
            db.sessions + [Session(plan.sessionId, plan.jobId, Dispatching, 0, AttemptId(plan.jobId, 0),
                                   AttemptId(plan.jobId, 0), plan.base, plan.now)]),
         Reserved)
  }

  // ---------------------------------------------------------------- outcomes

  datatype Outcome =
    | SentTo(handle: string)
    | SentMediated(url: string)
    | NotSent

  function OutcomeState(outcome: Outcome): SessionState {
    match outcome
    case SentTo(_) => Dispatched
    case SentMediated(_) => Mediated
    case NotSent => DispatchFailed
  }

  function Finalized(session: Session, outcome: Outcome, base: Option<string>, now: int): Session {
    var handle := match outcome
      case SentTo(handle) => handle
      case SentMediated(url) => if url != "" then url else session.handle
      case NotSent => session.handle;
    session.(state := OutcomeState(outcome), handle := handle,
             base := if base.Some? then base else session.base, updatedAt := now)
  }

  /** finalize_executor_session_dispatch: only a session still dispatching is finalized. */
  function Finalize(sessions: seq<Session>, id: string, outcome: Outcome, base: Option<string>, now: int)
    : (seq<Session>, bool)
  {
    var k := SessionIndex(sessions, id);
    if k >= 0 && sessions[k].state == Dispatching then (sessions[k := Finalized(sessions[k], outcome, base, now)], true)
    else (sessions, false)
  }

  /** One planned dispatch recorded: its job follows only if this outcome won. */
  function Record(db: Db, sessionId: string, jobId: string, event: string, outcome: Outcome, base: Option<string>,
                  now: int): (Db, bool)
  {
    var (sessions, won) := Finalize(db.sessions, sessionId, outcome, base, now);
    var events := SetEvent(db.events, event, Mapped);
    if won then (Db(events, SetStatus(db.jobs, jobId, if outcome.NotSent? then Failed else Running), sessions), true)
    else (db.(events := events), false)
  }

  /** The update inside recover_stale_dispatching_sessions, for one of the rows it selected. */
  function RecoverOne(db: Db, sessionId: string, jobId: string, now: int, cutoff: int): (Db, bool) {
    var k := SessionIndex(db.sessions, sessionId);
    if k >= 0 && db.sessions[k].state == Dispatching && db.sessions[k].updatedAt <= cutoff then
      (db.(sessions := db.sessions[k := db.sessions[k].(state := DispatchFailed, updatedAt := now)],
           jobs := SetStatus(db.jobs, jobId, Failed)), true)
    else (db, false)
  }

  // ---------------------------------------------------------------- review drain

  /** TERMINAL_GRAPH_TO_JOB_STATUS */
  function TerminalStatus(graphStatus: string): Option<JobStatus> {
    if graphStatus == "complete" then Some(Accepted)
    else if graphStatus == "deferred" then Some(Deferred)
    else None
  }

  function ReviewedStatus(job: Job, project: string, statusById: map<string, string>): Option<JobStatus> {
    if job.project == project && job.status == AwaitingReview && job.node in statusById
    then TerminalStatus(statusById[job.node]) else None
  }

  function Reviewed(job: Job, project: string, statusById: map<string, string>): Job {
    var s := ReviewedStatus(job, project, statusById);
    if s.Some? then job.(status := s.value, queueState := s.value) else job
  }

  /** reconcile_reviewed_jobs */
  function ReconcileReviewed(jobs: seq<Job>, project: string, statusById: map<string, string>): seq<Job> {
    seq(|jobs|, i requires 0 <= i < |jobs| => Reviewed(jobs[i], project, statusById))
  }

  /** The moved jobs in row order, each with its node and new state. */
  function Moved(jobs: seq<Job>, project: string, statusById: map<string, string>): seq<(string, string, JobStatus)> {
    if jobs == [] then []
    else
      var last := jobs[|jobs| - 1];
      var s := ReviewedStatus(last, project, statusById);
      Moved(jobs[..|jobs| - 1], project, statusById) + (if s.Some? then [(last.id, last.node, s.value)] else [])
  }

  /** Reported are exactly the rows that the drain changes. */
  lemma {:induction false} MovedTells(jobs: seq<Job>, project: string, statusById: map<string, string>)
    ensures var after := ReconcileReviewed(jobs, project, statusById);
      forall r :: r in Moved(jobs, project, statusById) <==> exists i ::
        0 <= i < |jobs| && jobs[i] != after[i] && r == (after[i].id, after[i].node, after[i].status)
  {
    if jobs != [] {
      var front, last := jobs[..|jobs| - 1], jobs[|jobs| - 1];
      MovedTells(front, project, statusById);
      var before, after := ReconcileReviewed(front, project, statusById), ReconcileReviewed(jobs, project, statusById);
      assert forall i :: 0 <= i < |front| ==> front[i] == jobs[i] && before[i] == after[i];
      assert after[|front|] == Reviewed(last, project, statusById);
      assert after[|front|] != last <==> ReviewedStatus(last, project, statusById).Some?;
      hide ReconcileReviewed, ReviewedStatus;
    }
  }

  /** The report follows the row order: what it says of a row stands behind what it says of the rows before. */
  lemma {:induction false} MovedInOrder(front: seq<Job>, job: Job, back: seq<Job>, project: string,
                                        statusById: map<string, string>)
    ensures Moved([], project, statusById) == []
    ensures Moved(front + [job] + back, project, statusById) ==
      Moved(front, project, statusById)
      + (if job.project == project && job.status == AwaitingReview && job.node in statusById
            && statusById[job.node] in {"complete", "deferred"}
         then [(job.id, job.node, if statusById[job.node] == "complete" then Accepted else Deferred)] else [])
      + Moved(back, project, statusById)
  {
    var all := front + [job] + back;
    if back == [] {
      assert all == front + [job] && all[..|front|] == front;
    } else {
      var less := back[..|back| - 1];
      MovedInOrder(front, job, less, project, statusById);
      assert all[..|all| - 1] == front + [job] + less;
      assert Moved(back, project, statusById) ==
        Moved(less, project, statusById) + Moved(back, project, statusById)[|Moved(less, project, statusById)|..];
      hide ReviewedStatus;
    }
  }

  // ---------------------------------------------------------------- retries

  function Truthy(value: Option<string>): Option<string> {
    if value == Some("") then None else value
  }

  /** The base of the job's first session that has one: by attempt, then insertion. */
  function LegacyBase(sessions: seq<Session>, jobId: string): Option<(nat, string)> {
    if sessions == [] then None
    else
      var front := LegacyBase(sessions[..|sessions| - 1], jobId);
      var last := sessions[|sessions| - 1];
      if last.jobId == jobId && last.base.Some? && (front.None? || last.attemptIndex < front.value.0)
      then Some((last.attemptIndex, last.base.value)) else front
  }

  /** recorded_base_commit_sha */
  function RecordedBase(db: Db, jobId: string): Option<string> {
    var k := JobIndex(db.jobs, jobId);
    var onJob := if k >= 0 then Truthy(db.jobs[k].base) else None;
    if onJob.Some? then onJob
    else
      var legacy := LegacyBase(db.sessions, jobId);
      if legacy.Some? then Truthy(Some(legacy.value.1)) else None
  }

  /** A caller's copy of a job row, possibly out of date. */
  datatype Snapshot = Snapshot(jobId: string, attempt: nat, maxAttempts: nat, plumbing: nat)

  function RetryBase(db: Db, jobId: string, override_: Option<string>): Option<string> {
    if Truthy(override_).Some? then override_ else RecordedBase(db, jobId)
  }

  /** Without a non-empty override a retry builds on the base of the job row. Only a row without one falls back to
      the sessions: to the one with the least attempt index that has a base, the first of those if there are several. */
  lemma RetryBaseTells(db: Db, k: nat, override_: Option<string>)
    requires k < |db.jobs| && forall i, j :: 0 <= i < j < |db.jobs| ==> db.jobs[i].id != db.jobs[j].id
    ensures var job, base := db.jobs[k], RetryBase(db, db.jobs[k].id, override_);
      && (override_.Some? && override_.value != "" ==> base == override_)
      && (override_ in {None, Some("")} && job.base !in {None, Some("")} ==> base == job.base)
      && (override_ in {None, Some("")} && job.base in {None, Some("")} ==>
            && ((forall i :: 0 <= i < |db.sessions| && db.sessions[i].jobId == job.id ==>
                   db.sessions[i].base == None) ==>
                  base == None)
            && (forall m :: FirstWithBase(db.sessions, job.id, m) ==>
                  base == if db.sessions[m].base == Some("") then None else db.sessions[m].base))
  {
    var j := JobIndex(db.jobs, db.jobs[k].id);
    assert j >= 0 && db.jobs[j].id == db.jobs[k].id;
    LegacyBaseTells(db.sessions, db.jobs[k].id);
    hide JobIndex, LegacyBase;
  }

  /** The session comes first by attempt and then insertion among those of the job that have a base. */
  ghost predicate FirstWithBase(sessions: seq<Session>, jobId: string, m: int) {
    && 0 <= m < |sessions| && sessions[m].jobId == jobId && sessions[m].base != None
    && forall i :: 0 <= i < |sessions| && sessions[i].jobId == jobId && sessions[i].base != None ==>
         sessions[m].attemptIndex < sessions[i].attemptIndex
         || (sessions[m].attemptIndex == sessions[i].attemptIndex && m <= i)
  }

  lemma {:induction false} LegacyBaseTells(sessions: seq<Session>, jobId: string)
    ensures LegacyBase(sessions, jobId).None? <==>
      forall i :: 0 <= i < |sessions| && sessions[i].jobId == jobId ==> sessions[i].base == None
    ensures forall m :: FirstWithBase(sessions, jobId, m) ==>
      LegacyBase(sessions, jobId) == Some((sessions[m].attemptIndex, sessions[m].base.value))
  {
    var m := LegacyAt(sessions, jobId);
    forall k | FirstWithBase(sessions, jobId, k) ensures k == m {
    }
  }

  /** The position of the session that LegacyBase reads. */
  lemma {:induction false} LegacyAt(sessions: seq<Session>, jobId: string) returns (m: int)
    ensures LegacyBase(sessions, jobId).None? ==>
      forall i :: 0 <= i < |sessions| && sessions[i].jobId == jobId ==> sessions[i].base == None
    ensures LegacyBase(sessions, jobId).Some? ==>
      && FirstWithBase(sessions, jobId, m)
      && LegacyBase(sessions, jobId) == Some((sessions[m].attemptIndex, sessions[m].base.value))
  {
    m := -1;
    if sessions != [] {
      var front, n := sessions[..|sessions| - 1], |sessions| - 1;
      m := LegacyAt(front, jobId);
      assert forall i :: 0 <= i < n ==> front[i] == sessions[i];
      var last := sessions[n];
      if last.jobId == jobId && last.base.Some?
         && (LegacyBase(front, jobId).None? || last.attemptIndex < LegacyBase(front, jobId).value.0) {
        m := n;
      }
    }
  }

  /** allocate_retry_attempt: a compare-and-set on the attempt counter, then the new session. */
  function AllocateRetry(db: Db, job: Snapshot, override_: Option<string>, sessionId: string, now: int): (Db, bool) {
    var k := JobIndex(db.jobs, job.jobId);
    if job.attempt >= job.maxAttempts || k < 0 || db.jobs[k].attempt != job.attempt then (db, false)
    else
      var next := job.attempt + 1;
      var handle := AttemptId(job.jobId, next);
      (db.(jobs := db.jobs[k := db.jobs[k].(attempt := next)],
           sessions := db.sessions + [Session(sessionId, job.jobId, Dispatching, next, handle, handle,
                                              RetryBase(db, job.jobId, override_), now)]), true)
  }

  function PlumbingHandle(jobId: string, attempt: nat, plumbing: nat): string {
    AttemptId(jobId, attempt) + ":plumbing:" + Decimal(plumbing)
  }

  /** allocate_plumbing_retry: its own counter; the attempt index comes from the caller's copy. */
  function AllocatePlumbing(db: Db, job: Snapshot, override_: Option<string>, sessionId: string, now: int): (Db, bool) {
    var k := JobIndex(db.jobs, job.jobId);
    if job.plumbing >= DEFAULT_PLUMBING_RETRY_BUDGET || k < 0 || db.jobs[k].plumbing != job.plumbing then (db, false)
    else
      var next := job.plumbing + 1;
      var handle := PlumbingHandle(job.jobId, job.attempt, next);
      (db.(jobs := db.jobs[k := db.jobs[k].(plumbing := next)],
           sessions := db.sessions + [Session(sessionId, job.jobId, Dispatching, job.attempt, handle, handle,
                                              RetryBase(db, job.jobId, override_), now)]), true)
  }

  // ---------------------------------------------------------------- what a reservation attempt means

  /** A reservation goes through exactly when the repo has room, no job of the node is in flight and every
      dependency is satisfied. A full repo is reported with its number of ready or running jobs, and without
      room nothing else is looked at. */
  lemma ReserveTells(db: Db, plan: Plan, cap: Option<nat>)
    ensures var r := Reserve(db, plan, cap).1;
      var active := |set i | 0 <= i < |db.jobs| && db.jobs[i].repo == plan.repo
                             && (db.jobs[i].status in {Ready, Running} || db.jobs[i].queueState in {Ready, Running})|;
      && (cap.Some? && active >= cap.value <==> r == OverCapacity(active))
      && (r.OverCapacity? ==> cap.Some? && active >= cap.value)
      && (r.Reserved? <==>
            && (cap.None? || active < cap.value)
            && (forall i :: 0 <= i < |db.jobs| && db.jobs[i].project == plan.project && db.jobs[i].node == plan.node ==>
                  db.jobs[i].status !in {Ready, Running, AwaitingResult, AwaitingReview})
            && (forall d :: d in plan.deps ==>
                  d in plan.graph && plan.graph[d] in {"complete", "provisional"}))
      && (r.Blocked? ==> r.scope == CheckScope(db.jobs, plan.project, plan.node, plan.deps, plan.graph))
  {
    ActiveJobsAreCounted(db.jobs, plan.repo);
    ScopeSafe(db.jobs, plan.project, plan.node, plan.deps, plan.graph);
    hide CheckScope, ActiveJobCount, AttemptId;
  }

  /** A reservation appends one ready job and its dispatching attempt-0 session; every other answer inserts nothing.
      Only a lack of room gives the event back. No other event changes. */
  lemma ReserveWrites(db: Db, plan: Plan, cap: Option<nat>)
    ensures var (after, r) := Reserve(db, plan, cap);
      && (r.Reserved? ==>
            && after.jobs == db.jobs + [Job(plan.jobId, plan.project, plan.node, plan.repo, Ready, Ready,
                                            0, 3, 0, plan.base)]
            && after.sessions == db.sessions + [Session(plan.sessionId, plan.jobId, Dispatching, 0,
                                                        plan.jobId + ":attempt:0", plan.jobId + ":attempt:0",
                                                        plan.base, plan.now)])
      && (!r.Reserved? ==> after.jobs == db.jobs && after.sessions == db.sessions)
      && after.events.Keys == db.events.Keys
      && (forall e :: e in db.events && e != plan.event ==> after.events[e] == db.events[e])
      && (plan.event in db.events ==>
            var event := db.events[plan.event];
            after.events[plan.event] ==
              if r.Reserved? then Event(Classified, event.claimedAt, event.project, event.repo)
              else if r.Blocked? then Event(ScopeBlocked, event.claimedAt, event.project, event.repo)
              else if event.status == Claimed then Event(Received, None, event.project, event.repo)
              else event)
  {
    assert Decimal(0) == "0";
    assert AttemptId(plan.jobId, 0) == plan.jobId + ":attempt:0" by {
      assert ":attempt:0" == ":attempt:" + "0";
    }
    hide CheckScope, ActiveJobCount, AttemptId;
  }

  /** A claim wins exactly on an event that waits or whose claim is stale. It then marks that event as claimed for
      the project at that time, and changes nothing else; a loser changes nothing. */
  lemma ClaimTells(db: Db, id: string, project: string, now: int, cutoff: int)
    ensures var (after, won) := Claim(db, id, project, now, cutoff);
      && (won <==> id in db.events
                   && (db.events[id].status == Received
                       || (db.events[id].status == Claimed
                           && exists t :: t < cutoff && db.events[id].claimedAt == Some(t))))
      && (!won ==> after == db)
      && after.jobs == db.jobs && after.sessions == db.sessions && after.events.Keys == db.events.Keys
      && (forall e :: e in db.events && e != id ==> after.events[e] == db.events[e])
      && (won ==> after.events[id] == Event(Claimed, Some(now), Some(project), db.events[id].repo))
  {
    if id in db.events && db.events[id].claimedAt.Some? {
      var t := db.events[id].claimedAt.value;
      assert t < cutoff ==> exists u :: u < cutoff && db.events[id].claimedAt == Some(u);
    }
  }

  /** A claim shuts out every heartbeat that started at most half an hour (in microseconds) after it, and no other. */
  lemma ClaimHoldsHalfAnHour(db: Db, id: string, project: string, now: int, cutoff: int,
                             other: string, started: int, later: int)
    requires Claim(db, id, project, now, cutoff).1
    ensures Claim(Claim(db, id, project, now, cutoff).0, id, other, later, started - 30 * 60 * 1_000_000).1
      <==> started > now + 30 * 60 * 1_000_000
  {
    SecondClaim(db, id, project, now, cutoff, other, later, started - 30 * 60 * 1_000_000);
  }

  /** Of two heartbeats that claim the same event, the second wins exactly when it considers the first
      one's claim stale. */
  lemma SecondClaim(db: Db, id: string, project: string, now: int, cutoff: int, project': string, now': int,
                    cutoff': int)
    requires Claim(db, id, project, now, cutoff).1
    ensures Claim(Claim(db, id, project, now, cutoff).0, id, project', now', cutoff').1 <==> now < cutoff'
  {
  }

  /** A recorded outcome wins exactly when the session is still dispatching. It then moves the session and its
      job together; won or lost, the event is mapped and no other row changes. A handle or base that the outcome
      brings is written, an empty url is none, and what it does not bring stays. */
  lemma RecordTells(db: Db, k: nat, event: string, outcome: Outcome, base: Option<string>, now: int)
    requires k < |db.sessions| && forall i, j :: 0 <= i < j < |db.sessions| ==> db.sessions[i].id != db.sessions[j].id
    ensures var s := db.sessions[k];
      var (after, won) := Record(db, s.id, s.jobId, event, outcome, base, now);
      && (won <==> s.state == Dispatching) && (!won ==> after.jobs == db.jobs && after.sessions == db.sessions)
      && |after.sessions| == |db.sessions| && |after.jobs| == |db.jobs|
      && (forall i :: 0 <= i < |db.sessions| && i != k ==> after.sessions[i] == db.sessions[i])
      && (forall i :: 0 <= i < |db.jobs| && db.jobs[i].id != s.jobId ==> after.jobs[i] == db.jobs[i])
      && (won ==> after.sessions[k] == Session(s.id, s.jobId, after.sessions[k].state, s.attemptIndex, s.reserved,
                                               after.sessions[k].handle, if base.Some? then base else s.base, now))
      && (won ==> match outcome
            case SentTo(handle) => after.sessions[k].state == Dispatched && after.sessions[k].handle == handle
            case SentMediated(url) => after.sessions[k].state == Mediated
                                      && after.sessions[k].handle == if url == "" then s.handle else url
            case NotSent => after.sessions[k].state == DispatchFailed && after.sessions[k].handle == s.handle)
      && (forall i :: won && 0 <= i < |db.jobs| && db.jobs[i].id == s.jobId ==>
            var status := if outcome.NotSent? then Failed else Running;
            after.jobs[i] == db.jobs[i].(status := status, queueState := status))
      && after.events.Keys == db.events.Keys
      && (forall e :: e in db.events ==>
            after.events[e] == if e == event then db.events[e].(status := Mapped) else db.events[e])
  {
    UniqueSession(db.sessions, k);
    hide SessionIndex;
  }

  /** A granted work retry moves only the job's attempt counter, by one, and opens one dispatching session of
      that attempt under the attempt's own handle. */
  lemma RetryTells(db: Db, job: Snapshot, override_: Option<string>, sessionId: string, now: int)
    requires AllocateRetry(db, job, override_, sessionId, now).1
    ensures var after := AllocateRetry(db, job, override_, sessionId, now).0; var k := JobIndex(db.jobs, job.jobId);
      && k >= 0 && after.events == db.events
      && after.jobs == db.jobs[k := db.jobs[k].(attempt := db.jobs[k].attempt + 1)]
      && |after.sessions| == |db.sessions| + 1 && after.sessions[..|db.sessions|] == db.sessions
      && var session := after.sessions[|db.sessions|];
      && after.jobs[k].attempt == job.attempt + 1
      && session.id == sessionId && session.jobId == job.jobId && session.state == Dispatching
      && session.attemptIndex == job.attempt + 1 && session.updatedAt == now
      && session.reserved == session.handle == job.jobId + ":attempt:" + Decimal(job.attempt + 1)
      && session.base == RetryBase(db, job.jobId, override_)
  {
    hide JobIndex, RetryBase, Decimal;
  }

  /** A granted plumbing retry moves only the job's plumbing counter, by one, and opens one dispatching session that
      keeps the attempt the caller knew, under a handle of its own. */
  lemma PlumbingTells(db: Db, job: Snapshot, override_: Option<string>, sessionId: string, now: int)
    requires AllocatePlumbing(db, job, override_, sessionId, now).1
    ensures var after := AllocatePlumbing(db, job, override_, sessionId, now).0;
      var k := JobIndex(db.jobs, job.jobId);
      && k >= 0 && after.events == db.events
      && after.jobs == db.jobs[k := db.jobs[k].(plumbing := db.jobs[k].plumbing + 1)]
      && |after.sessions| == |db.sessions| + 1 && after.sessions[..|db.sessions|] == db.sessions
      && var session := after.sessions[|db.sessions|];
      && after.jobs[k].plumbing == job.plumbing + 1
      && session.id == sessionId && session.jobId == job.jobId && session.state == Dispatching
      && session.attemptIndex == job.attempt && session.updatedAt == now
      && session.reserved == session.handle ==
           job.jobId + ":attempt:" + Decimal(job.attempt) + ":plumbing:" + Decimal(job.plumbing + 1)
      && session.base == RetryBase(db, job.jobId, override_)
  {
    hide JobIndex, RetryBase, Decimal;
  }

  /** The drain settles exactly the project's reviewed jobs whose node has reached a terminal graph status. */
  lemma DrainTells(jobs: seq<Job>, project: string, statusById: map<string, string>, i: nat)
    requires i < |jobs|
    ensures var after := ReconcileReviewed(jobs, project, statusById); var job := jobs[i];
      var reviewed := job.project == project && job.status == AwaitingReview && job.node in statusById;
      && |after| == |jobs|
      && (after[i] != job <==> reviewed && statusById[job.node] in {"complete", "deferred"})
      && (after[i] != job ==>
            after[i] == job.(status := after[i].status, queueState := after[i].status)
            && after[i].status == if statusById[job.node] == "complete" then Accepted else Deferred)
  {
  }

  // ---------------------------------------------------------------- the tables in place

  class QueueDb {
    var events: map<string, Event>
    var jobs: seq<Job>
    var sessions: seq<Session>

    function Rows(): Db
      reads this
    {
      Db(events, jobs, sessions)
    }

    constructor (events: map<string, Event>)
      ensures Rows() == Db(events, [], [])
    {
      this.events, jobs, sessions := events, [], [];
    }

    method ClaimEvent(id: string, project: string, now: int, cutoff: int) returns (won: bool)
      modifies this`events
      ensures (Rows(), won) == Claim(old(Rows()), id, project, now, cutoff)
    {
      won := id in events && Claimable(events[id], cutoff);
      if won {
        events := events[id := events[id].(status := Claimed, claimedAt := Some(now), project := Some(project))];
      }
    }

    method CountActive(repo: string) returns (count: nat)
      ensures count ==
        |set i | 0 <= i < |jobs| && jobs[i].repo == repo
                 && (jobs[i].status in {Ready, Running} || jobs[i].queueState in {Ready, Running})|
      ensures count == ActiveJobCount(jobs, repo)
    {
      count := 0;
      for i := 0 to |jobs|
        invariant count == ActiveJobCount(jobs[..i], repo)
      {
        assert jobs[..i + 1][..i] == jobs[..i];
        if jobs[i].repo == repo && Consumes(jobs[i]) {
          count := count + 1;
        }
      }
      assert jobs[..|jobs|] == jobs;
      ActiveJobsAreCounted(jobs, repo);
    }

    /** The body of the planning loop from BEGIN IMMEDIATE to commit. */
    method ReserveJob(plan: Plan, cap: Option<nat>) returns (r: Reservation)
      modifies this
      ensures (Rows(), r) == Reserve(old(Rows()), plan, cap)
    {
      var active := CountActive(plan.repo);
      if cap.Some? && active >= cap.value {
        events := Unclaim(events, plan.event);
        return OverCapacity(active);
      }
      var scope := CheckScope(jobs, plan.project, plan.node, plan.deps, plan.graph);
      if scope != Safe {
        events := SetEvent(events, plan.event, ScopeBlocked);
        return Blocked(scope);
      }
      events := SetEvent(events, plan.event, Classified);
      jobs := jobs + [Job(plan.jobId, plan.project, plan.node, plan.repo, Ready, Ready, 0, 3, 0, plan.base)];
      var handle := AttemptId(plan.jobId, 0);
      sessions := sessions + [Session(plan.sessionId, plan.jobId, Dispatching, 0, handle, handle, plan.base, plan.now)];
      return Reserved;
    }

    /** One turn of _record_outcomes. */
    method RecordOutcome(sessionId: string, jobId: string, event: string, outcome: Outcome, base: Option<string>,
                         now: int)
      returns (won: bool)
      modifies this
      ensures (Rows(), won) == Record(old(Rows()), sessionId, jobId, event, outcome, base, now)
    {
      hide SessionIndex;
      var k := SessionIndex(sessions, sessionId);
      won := k >= 0 && sessions[k].state == Dispatching;
      if won {
        sessions := sessions[k := Finalized(sessions[k], outcome, base, now)];
      }
      events := SetEvent(events, event, Mapped);
      if won {
        jobs := SetStatus(jobs, jobId, if outcome.NotSent? then Failed else Running);
      }
    }

    /** recover_stale_dispatching_sessions: exactly the rows that wait since the cutoff or earlier, are of their job's
        current attempt and belong to a live job (of the repo, if one is given) are selected, and then failed one by
        one together with their jobs. */
    method RecoverStale(now: int, cutoff: int, repo: Option<string>) returns (selected: seq<(string, string)>)
      modifies this
      ensures Rows() == RecoverAll(old(Rows()), selected, now, cutoff)
      ensures forall r :: r in selected <==>
        exists k, j :: 0 <= k < |old(sessions)| && 0 <= j < |old(jobs)|
          && r == (old(sessions)[k].id, old(sessions)[k].jobId) && old(jobs)[j].id == old(sessions)[k].jobId
          && old(sessions)[k].state == Dispatching && old(sessions)[k].updatedAt <= cutoff
          && old(sessions)[k].attemptIndex == old(jobs)[j].attempt && old(jobs)[j].status != Cancelled
          && (repo.None? || old(jobs)[j].repo == repo.value)
    {
      hide SessionIndex;
      var rows: seq<(string, string)> := [];
      for k := 0 to |sessions|
        invariant forall r :: r in rows <==>
          exists i :: 0 <= i < k && Expired(Rows(), i, cutoff, repo) && r == (sessions[i].id, sessions[i].jobId)
      {
        if Expired(Rows(), k, cutoff, repo) {
          rows := rows + [(sessions[k].id, sessions[k].jobId)];
        }
      }
      selected := rows;
      for i := 0 to |rows|
        invariant Rows() == RecoverAll(old(Rows()), rows[..i], now, cutoff)
        invariant |sessions| == |old(sessions)|
      {
        assert rows[..i + 1][..i] == rows[..i];
        var next := RecoverOne(Rows(), rows[i].0, rows[i].1, now, cutoff).0;
        jobs, sessions := next.jobs, next.sessions;
      }
      assert rows[..|rows|] == rows;
    }

    /** reconcile_reviewed_jobs: it reports exactly the jobs it moved, with their nodes and new states. */
    method DrainReviews(project: string, statusById: map<string, string>)
      returns (reconciled: seq<(string, string, JobStatus)>)
      modifies this`jobs
      ensures jobs == ReconcileReviewed(old(jobs), project, statusById)
      ensures reconciled == Moved(old(jobs), project, statusById)
      ensures forall r :: r in reconciled <==> exists i ::
        0 <= i < |jobs| && old(jobs)[i] != jobs[i] && r == (jobs[i].id, jobs[i].node, jobs[i].status)
    {
      reconciled := [];
      ghost var before := jobs;
      for i := 0 to |jobs|
        invariant |jobs| == |before|
        invariant forall k :: 0 <= k < i ==> jobs[k] == Reviewed(before[k], project, statusById)
        invariant forall k :: i <= k < |jobs| ==> jobs[k] == before[k]
        invariant reconciled == Moved(before[..i], project, statusById)
      {
        assert before[..i + 1][..i] == before[..i];
        var s := ReviewedStatus(jobs[i], project, statusById);
        if s.Some? {
          reconciled := reconciled + [(jobs[i].id, jobs[i].node, s.value)];
          jobs := jobs[i := jobs[i].(status := s.value, queueState := s.value)];
        }
      }
      assert before[..|before|] == before;
      assert jobs == ReconcileReviewed(before, project, statusById);
      MovedTells(before, project, statusById);
      hide ReconcileReviewed, Moved;
    }

    method RetryWork(job: Snapshot, override_: Option<string>, sessionId: string, now: int) returns (granted: bool)
      modifies this`jobs, this`sessions
      ensures (Rows(), granted) == AllocateRetry(old(Rows()), job, override_, sessionId, now)
    {
      hide JobIndex, RetryBase, AttemptId;
      if job.attempt >= job.maxAttempts {
        return false;
      }
      var k := JobIndex(jobs, job.jobId);
      if k < 0 || jobs[k].attempt != job.attempt {
        return false;
      }
      var base := RetryBase(Rows(), job.jobId, override_);
      jobs := jobs[k := jobs[k].(attempt := job.attempt + 1)];
      var handle := AttemptId(job.jobId, job.attempt + 1);
      sessions := sessions + [Session(sessionId, job.jobId, Dispatching, job.attempt + 1, handle, handle, base, now)];
      return true;
    }

    method RetryPlumbing(job: Snapshot, override_: Option<string>, sessionId: string, now: int) returns (granted: bool)
      modifies this`jobs, this`sessions
      ensures (Rows(), granted) == AllocatePlumbing(old(Rows()), job, override_, sessionId, now)
    {
      hide JobIndex, RetryBase, PlumbingHandle;
      if job.plumbing >= DEFAULT_PLUMBING_RETRY_BUDGET {
        return false;
      }
      var k := JobIndex(jobs, job.jobId);
      if k < 0 || jobs[k].plumbing != job.plumbing {
        return false;
      }
      var base := RetryBase(Rows(), job.jobId, override_);
      jobs := jobs[k := jobs[k].(plumbing := job.plumbing + 1)];
      var handle := PlumbingHandle(job.jobId, job.attempt, job.plumbing + 1);
      sessions := sessions + [Session(sessionId, job.jobId, Dispatching, job.attempt, handle, handle, base, now)];
      return true;
    }
  }

  /** The rows recover_stale_dispatching_sessions selects: the join of a session with its job. */
  predicate Expired(db: Db, k: nat, cutoff: int, repo: Option<string>)
    requires k < |db.sessions|
  {
    && db.sessions[k].state == Dispatching && db.sessions[k].updatedAt <= cutoff
    && exists j :: 0 <= j < |db.jobs| && db.jobs[j].id == db.sessions[k].jobId
         && db.sessions[k].attemptIndex == db.jobs[j].attempt && db.jobs[j].status != Cancelled
         && (repo.None? || db.jobs[j].repo == repo.value)
  }

  /** The updates of a recovery pass, row by row. */
  function RecoverAll(db: Db, rows: seq<(string, string)>, now: int, cutoff: int): Db {
    if rows == [] then db
    else
      var last := rows[|rows| - 1];
      RecoverOne(RecoverAll(db, rows[..|rows| - 1], now, cutoff), last.0, last.1, now, cutoff).0
  }

  lemma {:induction false} UniqueSession(sessions: seq<Session>, k: nat)
    requires k < |sessions| && forall i, j :: 0 <= i < j < |sessions| ==> sessions[i].id != sessions[j].id
    ensures SessionIndex(sessions, sessions[k].id) == k
  {
    var m := SessionIndex(sessions, sessions[k].id);
    assert m >= 0 && sessions[m].id == sessions[k].id;
  }

  /** The session is among the selected rows and still waits since the cutoff or earlier. */
  predicate Abandoned(s: Session, rows: seq<(string, string)>, cutoff: int) {
    && s.state == Dispatching && s.updatedAt <= cutoff
    && exists r :: r in rows && r.0 == s.id
  }

  /** A recovery changes no job except to fail it. */
  predicate OnlyFails(before: Job, after: Job) {
    after == before || after == before.(status := Failed, queueState := Failed)
  }

  /** Every row selected for the session names one and the same job. */
  predicate RowsName(rows: seq<(string, string)>, sessionId: string, jobId: string) {
    && (sessionId, jobId) in rows
    && forall q :: q in rows && q.0 == sessionId ==> q.1 == jobId
  }

  /** A recovery pass leaves every selected session that was abandoned failed, its job failed with it, and
      every other session as it was. */
  lemma {:induction false} RecoverAllTells(db: Db, rows: seq<(string, string)>, now: int, cutoff: int, k: nat)
    requires k < |db.sessions| && forall i, j :: 0 <= i < j < |db.sessions| ==> db.sessions[i].id != db.sessions[j].id
    ensures var after := RecoverAll(db, rows, now, cutoff);
      && |after.sessions| == |db.sessions| && |after.jobs| == |db.jobs|
      && (forall i :: 0 <= i < |db.sessions| ==> after.sessions[i].id == db.sessions[i].id)
      && (forall i :: 0 <= i < |db.jobs| ==> OnlyFails(db.jobs[i], after.jobs[i]))
      && after.events == db.events
      && (!Abandoned(db.sessions[k], rows, cutoff) ==> after.sessions[k] == db.sessions[k])
      && (Abandoned(db.sessions[k], rows, cutoff) ==>
            after.sessions[k] == db.sessions[k].(state := DispatchFailed, updatedAt := now))
    ensures Abandoned(db.sessions[k], rows, cutoff) ==>
      forall i :: 0 <= i < |db.jobs| && RowsName(rows, db.sessions[k].id, db.jobs[i].id) ==>
        RecoverAll(db, rows, now, cutoff).jobs[i].status == Failed
  {
    hide RecoverOne, OnlyFails;
    if rows == [] {
      OnlyFailsChains();
    } else {
      var front, row := rows[..|rows| - 1], rows[|rows| - 1];
      RecoverAllTells(db, front, now, cutoff, k);
      assert rows == front + [row];
      var mid := RecoverAll(db, front, now, cutoff);
      RecoverOneTells(mid, row.0, row.1, now, cutoff, k);
      OnlyFailsChains();
      var s := db.sessions[k];
      assert Abandoned(s, rows, cutoff) <==> Abandoned(s, front, cutoff) || Abandoned(s, [row], cutoff);
      forall i | 0 <= i < |db.jobs| && Abandoned(s, rows, cutoff) && RowsName(rows, s.id, db.jobs[i].id)
        ensures RecoverAll(db, rows, now, cutoff).jobs[i].status == Failed
      {
        if Abandoned(s, front, cutoff) {
          var r :| r in front && r.0 == s.id;
          assert r == (s.id, db.jobs[i].id);
          assert RowsName(front, s.id, db.jobs[i].id);
        } else {
          assert row == (s.id, db.jobs[i].id);
        }
      }
    }
  }

  /** A recovery pass touches no job that none of its rows names. */
  lemma {:induction false} OnlyNamedJobsFail(db: Db, rows: seq<(string, string)>, now: int, cutoff: int)
    ensures var after := RecoverAll(db, rows, now, cutoff);
      && |after.jobs| == |db.jobs|
      && forall i :: 0 <= i < |db.jobs| ==>
           after.jobs[i].id == db.jobs[i].id
           && ((forall r :: r in rows ==> r.1 != db.jobs[i].id) ==> after.jobs[i] == db.jobs[i])
  {
    if rows != [] {
      var front, row := rows[..|rows| - 1], rows[|rows| - 1];
      OnlyNamedJobsFail(db, front, now, cutoff);
      assert rows == front + [row];
      hide SessionIndex;
    }
  }

  lemma OnlyFailsChains()
    ensures forall a: Job :: OnlyFails(a, a)
    ensures forall a: Job, b: Job, c: Job :: OnlyFails(a, b) && OnlyFails(b, c) ==> OnlyFails(a, c)
    ensures forall a: Job, b: Job :: OnlyFails(a, b) ==> a.id == b.id && (a.status == Failed ==> b.status == Failed)
  {
  }

  lemma RecoverOneTells(db: Db, sessionId: string, jobId: string, now: int, cutoff: int, k: nat)
    requires k < |db.sessions| && forall i, j :: 0 <= i < j < |db.sessions| ==> db.sessions[i].id != db.sessions[j].id
    ensures var after := RecoverOne(db, sessionId, jobId, now, cutoff).0; var s := db.sessions[k];
      && |after.sessions| == |db.sessions| && |after.jobs| == |db.jobs|
      && (forall i :: 0 <= i < |db.sessions| ==> after.sessions[i].id == db.sessions[i].id)
      && (forall i :: 0 <= i < |db.jobs| ==> OnlyFails(db.jobs[i], after.jobs[i]))
      && after.events == db.events
      && (forall i :: 0 <= i < |db.jobs| && db.jobs[i].id != jobId ==> after.jobs[i] == db.jobs[i])
      && if s.id == sessionId && s.state == Dispatching && s.updatedAt <= cutoff
         then after.sessions[k] == s.(state := DispatchFailed, updatedAt := now)
              && forall i :: 0 <= i < |db.jobs| && db.jobs[i].id == jobId ==> after.jobs[i].status == Failed
         else after.sessions[k] == s
  {
    UniqueSession(db.sessions, k);
    hide SessionIndex;
  }
}
