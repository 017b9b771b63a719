/** Safety of job reservation and dispatch over every interleaving of any number of heartbeats.

    Retry redispatch and operator overrides are not steps of this machine. */
module Reservations {
  import opened Wrappers
  import opened JobQueue

  /** One atomic step of some heartbeat, of the evaluator's routing, or of the review drain. */
  datatype Step =
    | ClaimEvent(event: string, project: string, now: int, cutoff: int)
    | PutBack(event: string)
    | Dismiss(event: string, status: EventStatus)
    | ReserveJob(plan: Plan)
    | RecordOutcome(sessionId: string, event: string, outcome: Outcome, base: Option<string>, now: int)
    | RecoverStale(sessionId: string, now: int, cutoff: int)
    | Route(jobId: string, to: JobStatus)
    | DrainReviews(project: string, statusById: map<string, string>)

  /** One fixed cap per repo; a repo without an entry has none. */
  type Caps = map<string, nat>

  function CapOf(caps: Caps, repo: string): Option<nat> {
    if repo in caps then Some(caps[repo]) else None
  }

  /** A returned job goes from running to a result or review state, or fails. */
  predicate Routable(from: JobStatus, to: JobStatus) {
    || (from == Running && to in {AwaitingResult, AwaitingReview, Failed})
    || (from == AwaitingResult && to in {AwaitingReview, Failed})
  }

  ghost predicate Enabled(db: Db, step: Step) {
    match step
    case ReserveJob(plan) => JobIndex(db.jobs, plan.jobId) < 0 && SessionIndex(db.sessions, plan.sessionId) < 0
    case RecordOutcome(id, _, _, _, _) => SessionIndex(db.sessions, id) >= 0
    case RecoverStale(id, _, _) => SessionIndex(db.sessions, id) >= 0
    case Route(id, to) => var k := JobIndex(db.jobs, id); k >= 0 && Routable(db.jobs[k].status, to)
    case _ => true
  }

  /** A planned dispatch carries the job its session was inserted for. */
  ghost function JobOf(db: Db, sessionId: string): string
    requires SessionIndex(db.sessions, sessionId) >= 0
  {
    db.sessions[SessionIndex(db.sessions, sessionId)].jobId
  }

  ghost function Apply(db: Db, step: Step, caps: Caps): Db
    requires Enabled(db, step)
  {
    match step
    case ClaimEvent(id, project, now, cutoff) => Claim(db, id, project, now, cutoff).0
    case PutBack(id) => db.(events := Unclaim(db.events, id))
    case Dismiss(id, status) => db.(events := SetEvent(db.events, id, status))
    case ReserveJob(plan) => Reserve(db, plan, CapOf(caps, plan.repo)).0
    case RecordOutcome(id, event, outcome, base, now) => Record(db, id, JobOf(db, id), event, outcome, base, now).0
    case RecoverStale(id, now, cutoff) => RecoverOne(db, id, JobOf(db, id), now, cutoff).0
    case Route(id, to) => db.(jobs := SetStatus(db.jobs, id, to))
    case DrainReviews(project, statusById) => db.(jobs := ReconcileReviewed(db.jobs, project, statusById))
  }

  ghost predicate Reach(db: Db, steps: seq<Step>, caps: Caps, after: Db)
    decreases |steps|
  {
    if steps == [] then db == after
    else Enabled(db, steps[0]) && Reach(Apply(db, steps[0], caps), steps[1..], caps, after)
  }

  // ---------------------------------------------------------------- invariants

  /** Every job row has its attempt-0 session at the same position, ids are unique, and the two status
      columns agree. */
  ghost predicate Paired(db: Db) {
    && |db.jobs| == |db.sessions|
    && (forall i :: 0 <= i < |db.jobs| ==>
          && db.sessions[i].jobId == db.jobs[i].id && db.sessions[i].attemptIndex == 0
          && db.jobs[i].status == db.jobs[i].queueState)
    && (forall i, j :: 0 <= i < j < |db.jobs| ==> db.jobs[i].id != db.jobs[j].id)
    && forall i, j :: 0 <= i < j < |db.sessions| ==> db.sessions[i].id != db.sessions[j].id
  }

  /** A reserved session and its job tell the same story. */
  ghost predicate Agrees(state: SessionState, status: JobStatus) {
    match state
    case Dispatching => status == Ready
    case DispatchFailed => status == Failed
    case _ => status in {Running, AwaitingResult, AwaitingReview, Accepted, Deferred, Failed}
  }

  ghost predicate AllAgree(db: Db)
    requires |db.jobs| == |db.sessions|
  {
    forall i :: 0 <= i < |db.jobs| ==> Agrees(db.sessions[i].state, db.jobs[i].status)
  }

  ghost predicate OneInFlight(jobs: seq<Job>) {
    forall i, j :: 0 <= i < j < |jobs| && InFlight(jobs[i]) && InFlight(jobs[j]) ==>
      jobs[i].project != jobs[j].project || jobs[i].node != jobs[j].node
  }

  ghost predicate UnderCaps(jobs: seq<Job>, caps: Caps) {
    forall repo :: repo in caps ==> ActiveJobCount(jobs, repo) <= caps[repo]
  }

  ghost predicate Inv(db: Db, caps: Caps) {
    Paired(db) && AllAgree(db) && OneInFlight(db.jobs) && UnderCaps(db.jobs, caps)
  }

  /** The jobs afterwards are the same jobs, and none started to count for anything it did not count for. */
  ghost predicate NoBusier(jobs: seq<Job>, jobs': seq<Job>) {
    && |jobs'| == |jobs|
    && forall i :: 0 <= i < |jobs| ==>
         && jobs'[i].id == jobs[i].id && jobs'[i].project == jobs[i].project
         && jobs'[i].node == jobs[i].node && jobs'[i].repo == jobs[i].repo
         && (InFlight(jobs'[i]) ==> InFlight(jobs[i])) && (Consumes(jobs'[i]) ==> Consumes(jobs[i]))
  }

  lemma {:induction false} CountNoBusier(jobs: seq<Job>, jobs': seq<Job>, repo: string)
    requires NoBusier(jobs, jobs')
    ensures ActiveJobCount(jobs', repo) <= ActiveJobCount(jobs, repo)
  {
    if jobs != [] {
      CountNoBusier(jobs[..|jobs| - 1], jobs'[..|jobs| - 1], repo);
    }
  }

  lemma NoBusierKeeps(jobs: seq<Job>, jobs': seq<Job>, caps: Caps)
    requires NoBusier(jobs, jobs') && OneInFlight(jobs) && UnderCaps(jobs, caps)
    ensures OneInFlight(jobs') && UnderCaps(jobs', caps)
  {
    forall repo | repo in caps ensures ActiveJobCount(jobs', repo) <= caps[repo] {
      CountNoBusier(jobs, jobs', repo);
    }
  }

  lemma StatusIsNoBusier(jobs: seq<Job>, id: string, s: JobStatus)
    requires forall i :: 0 <= i < |jobs| && jobs[i].id == id ==>
      && (s in {Ready, Running, AwaitingResult, AwaitingReview} ==> InFlight(jobs[i]))
      && (s in {Ready, Running} ==> Consumes(jobs[i]))
    ensures NoBusier(jobs, SetStatus(jobs, id, s))
  {
  }

  lemma CountMore(jobs: seq<Job>, job: Job, repo: string)
    ensures ActiveJobCount(jobs + [job], repo) <= ActiveJobCount(jobs, repo) + (if repo == job.repo then 1 else 0)
  {
    assert (jobs + [job])[..|jobs|] == jobs;
  }

  /** A ready job of a node with nothing in flight, in a repo with room, joins safely. */
  lemma JoinKeeps(jobs: seq<Job>, job: Job, caps: Caps)
    requires OneInFlight(jobs) && UnderCaps(jobs, caps)
    requires forall i :: 0 <= i < |jobs| && jobs[i].project == job.project && jobs[i].node == job.node ==>
      !InFlight(jobs[i])
    requires job.repo in caps ==> ActiveJobCount(jobs, job.repo) < caps[job.repo]
    ensures OneInFlight(jobs + [job]) && UnderCaps(jobs + [job], caps)
  {
    hide InFlight, ActiveJobCount;
    forall repo | repo in caps ensures ActiveJobCount(jobs + [job], repo) <= caps[repo] {
      CountMore(jobs, job, repo);
    }
  }

  lemma ReserveKeeps(db: Db, plan: Plan, caps: Caps)
    requires Inv(db, caps) && JobIndex(db.jobs, plan.jobId) < 0 && SessionIndex(db.sessions, plan.sessionId) < 0
    ensures Inv(Reserve(db, plan, CapOf(caps, plan.repo)).0, caps)
  {
    var (after, r) := Reserve(db, plan, CapOf(caps, plan.repo));
    if r.Reserved? {
      ScopeSafe(db.jobs, plan.project, plan.node, plan.deps, plan.graph);
      hide CheckScope, AttemptId, ActiveJobCount, OneInFlight, UnderCaps, InFlight;
      var job := after.jobs[|db.jobs|];
      assert after.jobs == db.jobs + [job];
      JoinKeeps(db.jobs, job, caps);
    }
  }

  /** A session leaves `dispatching` together with its job. */
  lemma FlipKeeps(db: Db, k: nat, session: Session, s: JobStatus, events: map<string, Event>, caps: Caps)
    requires Inv(db, caps) && k < |db.sessions| && db.sessions[k].state == Dispatching
    requires session.id == db.sessions[k].id && session.jobId == db.sessions[k].jobId
    requires session.attemptIndex == db.sessions[k].attemptIndex
    requires s in {Running, Failed} && Agrees(session.state, s)
    ensures Inv(Db(events, SetStatus(db.jobs, session.jobId, s), db.sessions[k := session]), caps)
  {
    StatusIsNoBusier(db.jobs, session.jobId, s);
    NoBusierKeeps(db.jobs, SetStatus(db.jobs, session.jobId, s), caps);
    hide UnderCaps, OneInFlight;
  }

  lemma RecordKeeps(db: Db, sessionId: string, event: string, outcome: Outcome, base: Option<string>, now: int,
                    caps: Caps)
    requires Inv(db, caps) && SessionIndex(db.sessions, sessionId) >= 0
    ensures Inv(Record(db, sessionId, JobOf(db, sessionId), event, outcome, base, now).0, caps)
  {
    hide Paired, AllAgree, UnderCaps, OneInFlight, Inv, SetStatus;
    var k := SessionIndex(db.sessions, sessionId);
    var events := SetEvent(db.events, event, Mapped);
    if db.sessions[k].state == Dispatching {
      var session := Finalized(db.sessions[k], outcome, base, now);
      FlipKeeps(db, k, session, if outcome.NotSent? then Failed else Running, events, caps);
    } else {
      EventsOnly(db, events, caps);
    }
  }

  lemma EventsOnly(db: Db, events: map<string, Event>, caps: Caps)
    requires Inv(db, caps)
    ensures Inv(db.(events := events), caps)
  {
  }

  lemma RecoverKeeps(db: Db, sessionId: string, now: int, cutoff: int, caps: Caps)
    requires Inv(db, caps) && SessionIndex(db.sessions, sessionId) >= 0
    ensures Inv(RecoverOne(db, sessionId, JobOf(db, sessionId), now, cutoff).0, caps)
  {
    hide Paired, AllAgree, UnderCaps, OneInFlight, Inv, SetStatus;
    var k := SessionIndex(db.sessions, sessionId);
    if db.sessions[k].state == Dispatching && db.sessions[k].updatedAt <= cutoff {
      FlipKeeps(db, k, db.sessions[k].(state := DispatchFailed, updatedAt := now), Failed, db.events, caps);
    }
  }

  lemma RouteKeeps(db: Db, id: string, to: JobStatus, caps: Caps)
    requires Inv(db, caps) && JobIndex(db.jobs, id) >= 0 && Routable(db.jobs[JobIndex(db.jobs, id)].status, to)
    ensures Inv(db.(jobs := SetStatus(db.jobs, id, to)), caps)
  {
    StatusIsNoBusier(db.jobs, id, to);
    NoBusierKeeps(db.jobs, SetStatus(db.jobs, id, to), caps);
    hide UnderCaps, OneInFlight;
  }

  lemma DrainKeeps(db: Db, project: string, statusById: map<string, string>, caps: Caps)
    requires Inv(db, caps)
    ensures Inv(db.(jobs := ReconcileReviewed(db.jobs, project, statusById)), caps)
  {
    NoBusierKeeps(db.jobs, ReconcileReviewed(db.jobs, project, statusById), caps);
    hide UnderCaps, OneInFlight;
  }

  lemma InvStep(db: Db, step: Step, caps: Caps)
    requires Inv(db, caps) && Enabled(db, step)
    ensures Inv(Apply(db, step, caps), caps)
  {
    match step
    case ClaimEvent(id, project, now, cutoff) =>
    case PutBack(id) =>
    case Dismiss(id, status) =>
    case ReserveJob(plan) => ReserveKeeps(db, plan, caps);
    case RecordOutcome(id, event, outcome, base, now) => RecordKeeps(db, id, event, outcome, base, now, caps);
    case RecoverStale(id, now, cutoff) => RecoverKeeps(db, id, now, cutoff, caps);
    case Route(id, to) => RouteKeeps(db, id, to, caps);
    case DrainReviews(project, statusById) => DrainKeeps(db, project, statusById, caps);
  }

  // ---------------------------------------------------------------- the main results

  ghost predicate Empty(db: Db) {
    db.jobs == [] && db.sessions == []
  }

  lemma {:induction false} InvAlong(db: Db, steps: seq<Step>, caps: Caps, after: Db)
    requires Inv(db, caps) && Reach(db, steps, caps, after)
    ensures Inv(after, caps)
    decreases |steps|
  {
    hide Inv, Enabled, Apply;
    if steps != [] {
      InvStep(db, steps[0], caps);
      InvAlong(Apply(db, steps[0], caps), steps[1..], caps, after);
    }
  }

  lemma EmptyInv(db: Db, caps: Caps)
    requires Empty(db)
    ensures Inv(db, caps)
  {
  }

  /** However claims (stale ones too), reservations, outcomes, recoveries, routing and review drains of any
      number of heartbeats interleave: at most one job per node is in flight, and no repo's ready-or-running
      count exceeds its cap. */
  lemma ReservationsAreSafe(db: Db, steps: seq<Step>, caps: Caps, after: Db)
    requires Empty(db) && Reach(db, steps, caps, after)
    ensures forall i, j ::
      (&& 0 <= i < j < |after.jobs|
       && after.jobs[i].status in {Ready, Running, AwaitingResult, AwaitingReview}
       && after.jobs[j].status in {Ready, Running, AwaitingResult, AwaitingReview}) ==>
      after.jobs[i].project != after.jobs[j].project || after.jobs[i].node != after.jobs[j].node
    ensures forall repo :: repo in caps ==>
      |set i | 0 <= i < |after.jobs| && after.jobs[i].repo == repo
               && (after.jobs[i].status in {Ready, Running} || after.jobs[i].queueState in {Ready, Running})|
        <= caps[repo]
  {
    EmptyInv(db, caps);
    InvAlong(db, steps, caps, after);
    forall repo | repo in caps
      ensures |set i | 0 <= i < |after.jobs| && after.jobs[i].repo == repo
                       && (after.jobs[i].status in {Ready, Running} || after.jobs[i].queueState in {Ready, Running})|
        <= caps[repo]
    {
      ActiveJobsAreCounted(after.jobs, repo);
    }
  }

  /** Steps only append sessions, and one that left `dispatching` stays as it is. */
  lemma SessionsStay(db: Db, step: Step, caps: Caps, k: nat)
    requires Inv(db, caps) && Enabled(db, step) && k < |db.sessions|
    ensures var after := Apply(db, step, caps);
      && k < |after.sessions| && after.sessions[k].id == db.sessions[k].id
      && (db.sessions[k].state != Dispatching ==> after.sessions[k] == db.sessions[k])
  {
    hide UnderCaps, OneInFlight, AllAgree, SetStatus, CheckScope, ActiveJobCount, ReconcileReviewed;
  }

  /** The step that takes session `k` out of `dispatching`. */
  ghost predicate Wins(db: Db, step: Step, caps: Caps, k: nat) {
    && Enabled(db, step) && k < |db.sessions| && k < |Apply(db, step, caps).sessions|
    && db.sessions[k].state == Dispatching && Apply(db, step, caps).sessions[k].state != Dispatching
  }

  ghost function WinCount(db: Db, steps: seq<Step>, caps: Caps, k: nat): nat
    decreases |steps|
  {
    if steps == [] || !Enabled(db, steps[0]) then 0
    else (if Wins(db, steps[0], caps, k) then 1 else 0) + WinCount(Apply(db, steps[0], caps), steps[1..], caps, k)
  }

  /** Of all outcomes and recoveries racing for a reserved session, at most one wins; one has won exactly
      when the session is no longer dispatching. */
  lemma {:induction false} OneWinner(db: Db, steps: seq<Step>, caps: Caps, after: Db, k: nat)
    requires Inv(db, caps) && Reach(db, steps, caps, after) && k < |db.sessions|
    ensures k < |after.sessions|
    ensures db.sessions[k].state == Dispatching ==>
      WinCount(db, steps, caps, k) == if after.sessions[k].state == Dispatching then 0 else 1
    ensures db.sessions[k].state != Dispatching ==>
      WinCount(db, steps, caps, k) == 0 && after.sessions[k] == db.sessions[k]
    decreases |steps|
  {
    if steps != [] {
      hide Inv, Enabled, Apply;
      InvStep(db, steps[0], caps);
      SessionsStay(db, steps[0], caps, k);
      OneWinner(Apply(db, steps[0], caps), steps[1..], caps, after, k);
    }
  }

  /** The winner decides the job: running when it was dispatched or mediated, failed otherwise. */
  lemma WinnerDecides(db: Db, step: Step, caps: Caps, k: nat)
    requires Inv(db, caps) && Wins(db, step, caps, k)
    ensures var after := Apply(db, step, caps);
      && k < |after.jobs| && after.jobs[k].id == after.sessions[k].jobId
      && (after.jobs[k].status == Running <==> after.sessions[k].state in {Dispatched, Mediated})
      && (after.jobs[k].status == Failed <==> after.sessions[k].state == DispatchFailed)
      && db.jobs[k].status == Ready
  {
    InvStep(db, step, caps);
    hide UnderCaps, OneInFlight, CheckScope, ActiveJobCount, ReconcileReviewed;
  }

  /** A late outcome or a second recovery touches neither jobs nor sessions: a recovered job is never revived. */
  lemma LateOutcomeIgnored(db: Db, step: Step, caps: Caps, k: nat)
    requires Inv(db, caps) && Enabled(db, step) && k < |db.sessions| && db.sessions[k].state != Dispatching
    requires (step.RecordOutcome? || step.RecoverStale?) && step.sessionId == db.sessions[k].id
    ensures Apply(db, step, caps).jobs == db.jobs && Apply(db, step, caps).sessions == db.sessions
  {
    hide UnderCaps, OneInFlight, SetStatus;
  }

  /** A job whose dispatch failed or was recovered stays failed for ever. */
  lemma {:induction false} FailedStaysFailed(db: Db, steps: seq<Step>, caps: Caps, after: Db, k: nat)
    requires Inv(db, caps) && Reach(db, steps, caps, after)
    requires k < |db.sessions| && db.sessions[k].state == DispatchFailed
    ensures k < |after.jobs| && after.jobs[k].status == Failed
  {
    OneWinner(db, steps, caps, after, k);
    InvAlong(db, steps, caps, after);
    hide UnderCaps, OneInFlight;
  }
}
