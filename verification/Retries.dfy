/** Accounting of work and plumbing retries (scripts/runtime/heartbeat/state_recorder.py) over every
    interleaving with the steps of the reservation machine, retries being called with job snapshots of any age. */
module Retries {
  import opened Wrappers
  import opened Text
  import opened JobQueue
  import Reservations

  datatype Step =
    | Other(step: Reservations.Step)
    | WorkRetry(job: Snapshot, override_: Option<string>, sessionId: string, now: int)
    | PlumbingRetry(job: Snapshot, override_: Option<string>, sessionId: string, now: int)

  /** max_attempts is written once, so any copy of the row carries it. */
  ghost predicate SnapshotOf(db: Db, job: Snapshot) {
    forall i :: 0 <= i < |db.jobs| && db.jobs[i].id == job.jobId ==> db.jobs[i].maxAttempts == job.maxAttempts
  }

  ghost predicate Enabled(db: Db, step: Step) {
    match step
    case Other(s) => Reservations.Enabled(db, s)
    case WorkRetry(job, _, id, _) => SnapshotOf(db, job) && SessionIndex(db.sessions, id) < 0
    case PlumbingRetry(job, _, id, _) => SnapshotOf(db, job) && SessionIndex(db.sessions, id) < 0
  }

  ghost function Apply(db: Db, step: Step, caps: Reservations.Caps): Db
    requires Enabled(db, step)
  {
    match step
    case Other(s) => Reservations.Apply(db, s, caps)
    case WorkRetry(job, override_, id, now) => AllocateRetry(db, job, override_, id, now).0
    case PlumbingRetry(job, override_, id, now) => AllocatePlumbing(db, job, override_, id, now).0
  }

  ghost predicate Reach(db: Db, steps: seq<Step>, caps: Reservations.Caps, after: Db)
    decreases |steps|
  {
    if steps == [] then db == after
    else Enabled(db, steps[0]) && Reach(Apply(db, steps[0], caps), steps[1..], caps, after)
  }

  // ---------------------------------------------------------------- handles

  lemma {:induction false} NoColon(n: nat, i: nat)
    requires i < |Decimal(n)|
    ensures Decimal(n)[i] != ':'
  {
    assert IsDigit(Decimal(n)[i]);
  }

  /** Text without a colon after the last one is no longer than any other such reading of the same string. */
  lemma TailIsShortest(x: string, d: string, y: string, e: string)
    requires x + ":" + d == y + ":" + e && forall i :: 0 <= i < |e| ==> e[i] != ':'
    ensures |e| <= |d|
  {
    var s := y + ":" + e;
    assert forall i :: |y| < i < |s| ==> s[i] == e[i - |y| - 1];
    assert s[|x|] == ':';
  }

  /** The last colon of a string splits it in one way. */
  lemma SplitAtLastColon(x: string, m: nat, y: string, n: nat)
    requires x + ":" + Decimal(m) == y + ":" + Decimal(n)
    ensures x == y && m == n
  {
    forall i: nat | i < |Decimal(m)| ensures Decimal(m)[i] != ':' { NoColon(m, i); }
    forall i: nat | i < |Decimal(n)| ensures Decimal(n)[i] != ':' { NoColon(n, i); }
    TailIsShortest(x, Decimal(m), y, Decimal(n));
    TailIsShortest(y, Decimal(n), x, Decimal(m));
    var s := x + ":" + Decimal(m);
    assert s[..|x|] == x && s[..|y|] == y;
    assert s[|x| + 1..] == Decimal(m) && s[|y| + 1..] == Decimal(n);
    DecimalInjective(m, n);
  }

  lemma HandleShapes(jobId: string, a: nat, k: nat)
    ensures AttemptId(jobId, a) == jobId + ":attempt" + ":" + Decimal(a)
    ensures PlumbingHandle(jobId, a, k) == AttemptId(jobId, a) + ":plumbing" + ":" + Decimal(k)
  {
    assert ":attempt:" == ":attempt" + ":" && ":plumbing:" == ":plumbing" + ":";
    assert jobId + ":attempt:" == jobId + ":attempt" + ":";
    assert AttemptId(jobId, a) + ":plumbing:" == AttemptId(jobId, a) + ":plumbing" + ":";
  }

  /** An attempt handle determines its job and its attempt. */
  lemma AttemptIdInjective(jobId: string, m: nat, other: string, n: nat)
    ensures AttemptId(jobId, m) == AttemptId(other, n) ==> jobId == other && m == n
  {
    HandleShapes(jobId, m, 0);
    HandleShapes(other, n, 0);
    if AttemptId(jobId, m) == AttemptId(other, n) {
      SplitAtLastColon(jobId + ":attempt", m, other + ":attempt", n);
      assert (jobId + ":attempt")[..|jobId|] == jobId && (other + ":attempt")[..|other|] == other;
    }
  }

  /** No plumbing handle of any job is an attempt handle of any job. */
  lemma PlumbingIsNoAttempt(jobId: string, m: nat, other: string, a: nat, k: nat)
    ensures AttemptId(jobId, m) != PlumbingHandle(other, a, k)
  {
    HandleShapes(jobId, m, 0);
    HandleShapes(other, a, k);
    var x, y := jobId + ":attempt", AttemptId(other, a) + ":plumbing";
    assert x[|x| - 1] == 't' && y[|y| - 1] == 'g';
    hide AttemptId, PlumbingHandle;
    assert x != y;
    if x + ":" + Decimal(m) == y + ":" + Decimal(k) {
      SplitAtLastColon(x, m, y, k);
    }
  }

  /** A plumbing handle determines its job, the attempt it names and its counter. */
  lemma PlumbingInjective(jobId: string, a: nat, k: nat, other: string, b: nat, l: nat)
    ensures PlumbingHandle(jobId, a, k) == PlumbingHandle(other, b, l) ==> jobId == other && a == b && k == l
  {
    HandleShapes(jobId, a, k);
    HandleShapes(other, b, l);
    hide PlumbingHandle;
    if PlumbingHandle(jobId, a, k) == PlumbingHandle(other, b, l) {
      var x, y := AttemptId(jobId, a), AttemptId(other, b);
      SplitAtLastColon(x + ":plumbing", k, y + ":plumbing", l);
      assert (x + ":plumbing")[..|x|] == x && (y + ":plumbing")[..|y|] == y;
      AttemptIdInjective(jobId, a, other, b);
    }
  }

  // ---------------------------------------------------------------- the books

  function SessionCount(sessions: seq<Session>, jobId: string): nat {
    if sessions == [] then 0
    else SessionCount(sessions[..|sessions| - 1], jobId) + (if sessions[|sessions| - 1].jobId == jobId then 1 else 0)
  }

  /** The handle was allotted by the job's counters as they stand. */
  ghost predicate Allotted(reserved: string, job: Job) {
    || (exists n: nat :: n <= job.attempt && reserved == AttemptId(job.id, n))
    || (exists a: nat, k: nat :: 1 <= k <= job.plumbing && reserved == PlumbingHandle(job.id, a, k))
  }

  ghost predicate Rows(db: Db) {
    && (forall i, j :: 0 <= i < j < |db.jobs| ==> db.jobs[i].id != db.jobs[j].id)
    && forall i :: 0 <= i < |db.sessions| ==> JobIndex(db.jobs, db.sessions[i].jobId) >= 0
  }

  ghost predicate Counted(db: Db) {
    forall i :: 0 <= i < |db.jobs| ==>
      && SessionCount(db.sessions, db.jobs[i].id) == 1 + db.jobs[i].attempt + db.jobs[i].plumbing
      && db.jobs[i].attempt <= db.jobs[i].maxAttempts
      && db.jobs[i].plumbing <= DEFAULT_PLUMBING_RETRY_BUDGET
  }

  ghost predicate HandlesAllotted(db: Db) {
    forall i, j :: 0 <= i < |db.sessions| && 0 <= j < |db.jobs| && db.sessions[i].jobId == db.jobs[j].id ==>
      Allotted(db.sessions[i].reserved, db.jobs[j])
  }

  ghost predicate HandlesDistinct(sessions: seq<Session>) {
    forall i, j :: 0 <= i < j < |sessions| && sessions[i].jobId == sessions[j].jobId ==>
      sessions[i].reserved != sessions[j].reserved
  }

  ghost predicate Books(db: Db) {
    Rows(db) && Counted(db) && HandlesAllotted(db) && HandlesDistinct(db.sessions)
  }

  /** Nothing the books look at has changed. */
  ghost predicate SameBooks(db: Db, after: Db) {
    && |after.jobs| == |db.jobs| && |after.sessions| == |db.sessions|
    && (forall i :: 0 <= i < |db.jobs| ==>
          && after.jobs[i].id == db.jobs[i].id && after.jobs[i].attempt == db.jobs[i].attempt
          && after.jobs[i].maxAttempts == db.jobs[i].maxAttempts && after.jobs[i].plumbing == db.jobs[i].plumbing
          && after.jobs[i].base == db.jobs[i].base)
    && forall i :: 0 <= i < |db.sessions| ==>
         after.sessions[i].jobId == db.sessions[i].jobId && after.sessions[i].reserved == db.sessions[i].reserved
  }

  lemma {:induction false} SameCount(a: seq<Session>, b: seq<Session>, jobId: string)
    requires |a| == |b| && forall i :: 0 <= i < |a| ==> a[i].jobId == b[i].jobId
    ensures SessionCount(a, jobId) == SessionCount(b, jobId)
  {
    if a != [] {
      SameCount(a[..|a| - 1], b[..|b| - 1], jobId);
    }
  }

  lemma {:induction false} NoSessions(sessions: seq<Session>, jobId: string)
    requires forall i :: 0 <= i < |sessions| ==> sessions[i].jobId != jobId
    ensures SessionCount(sessions, jobId) == 0
  {
    if sessions != [] {
      NoSessions(sessions[..|sessions| - 1], jobId);
    }
  }

  lemma SameRows(db: Db, after: Db)
    requires Rows(db) && SameBooks(db, after)
    ensures Rows(after)
  {
    forall i | 0 <= i < |db.sessions| ensures JobIndex(after.jobs, after.sessions[i].jobId) >= 0 {
      var k := JobIndex(db.jobs, db.sessions[i].jobId);
      assert after.jobs[k].id == db.sessions[i].jobId;
    }
  }

  lemma SameCounted(db: Db, after: Db)
    requires Counted(db) && SameBooks(db, after)
    ensures Counted(after)
  {
    forall j | 0 <= j < |after.jobs|
      ensures SessionCount(after.sessions, after.jobs[j].id) == SessionCount(db.sessions, db.jobs[j].id)
    {
      SameCount(after.sessions, db.sessions, after.jobs[j].id);
    }
  }

  lemma SameAllotted(db: Db, after: Db)
    requires HandlesAllotted(db) && SameBooks(db, after)
    ensures HandlesAllotted(after)
  {
    hide Allotted;
    forall i, j | 0 <= i < |after.sessions| && 0 <= j < |after.jobs| && after.sessions[i].jobId == after.jobs[j].id
      ensures Allotted(after.sessions[i].reserved, after.jobs[j])
    {
      AllottedAlike(after.sessions[i].reserved, db.jobs[j], after.jobs[j]);
    }
  }

  lemma AllottedAlike(reserved: string, job: Job, job': Job)
    requires job.id == job'.id && job.attempt <= job'.attempt && job.plumbing <= job'.plumbing
    ensures Allotted(reserved, job) ==> Allotted(reserved, job')
  {
    hide AttemptId, PlumbingHandle;
  }

  lemma SameBooksKeeps(db: Db, after: Db)
    requires Books(db) && SameBooks(db, after)
    ensures Books(after)
  {
    hide Rows, Counted, HandlesAllotted;
    SameRows(db, after);
    SameCounted(db, after);
    SameAllotted(db, after);
  }

  // ---------------------------------------------------------------- one step

  /** Every step of the reservation machine but a successful reservation leaves the books alone. */
  lemma OtherSteps(db: Db, step: Reservations.Step, caps: Reservations.Caps)
    requires Reservations.Enabled(db, step) && !step.ReserveJob?
    ensures SameBooks(db, Reservations.Apply(db, step, caps))
  {
  }

  /** The reservation of a new job opens its books with attempt 0. */
  lemma ReserveBooks(db: Db, plan: Plan, cap: Option<nat>)
    requires Books(db) && JobIndex(db.jobs, plan.jobId) < 0
    ensures Books(Reserve(db, plan, cap).0)
  {
    var after := Reserve(db, plan, cap).0;
    if Reserve(db, plan, cap).1.Reserved? {
      hide CheckScope, ActiveJobCount, AttemptId;
      var job, session := after.jobs[|db.jobs|], after.sessions[|db.sessions|];
      AppendJob(db, job, session);
      assert after == Db(after.events, db.jobs + [job], db.sessions + [session]);
      EventsOnly(Db(db.events, after.jobs, after.sessions), after.events);
    } else {
      EventsOnly(db, after.events);
    }
  }

  lemma EventsOnly(db: Db, events: map<string, Event>)
    requires Books(db)
    ensures Books(db.(events := events))
  {
    hide Rows, Counted, HandlesAllotted, HandlesDistinct;
    SameBooksKeeps(db, db.(events := events));
  }

  lemma {:induction false} IndexOfOthers(jobs: seq<Job>, job: Job, id: string)
    ensures JobIndex(jobs, id) >= 0 ==> JobIndex(jobs + [job], id) >= 0
  {
    assert (jobs + [job])[..|jobs|] == jobs;
  }

  lemma CountAppend(sessions: seq<Session>, session: Session, jobId: string)
    ensures SessionCount(sessions + [session], jobId)
      == SessionCount(sessions, jobId) + (if session.jobId == jobId then 1 else 0)
  {
    assert (sessions + [session])[..|sessions|] == sessions;
  }

  lemma AppendJob(db: Db, job: Job, session: Session)
    requires Books(db) && JobIndex(db.jobs, job.id) < 0
    requires job.attempt == 0 && job.plumbing == 0 && job.maxAttempts == 3
    requires session.jobId == job.id && session.reserved == AttemptId(job.id, 0)
    ensures Books(db.(jobs := db.jobs + [job], sessions := db.sessions + [session]))
  {
    var after := db.(jobs := db.jobs + [job], sessions := db.sessions + [session]);
    NobodysSession(db, job.id);
    AppendRows(db, job, session);
    assert Allotted(session.reserved, job);
    hide AttemptId, PlumbingHandle, JobIndex, Allotted, Rows;
    AppendCounted(db, job, session);
  }

  lemma AppendRows(db: Db, job: Job, session: Session)
    requires Rows(db) && JobIndex(db.jobs, job.id) < 0 && session.jobId == job.id
    ensures Rows(db.(jobs := db.jobs + [job], sessions := db.sessions + [session]))
  {
    var after := db.(jobs := db.jobs + [job], sessions := db.sessions + [session]);
    forall i | 0 <= i < |after.sessions| ensures JobIndex(after.jobs, after.sessions[i].jobId) >= 0 {
      if i < |db.sessions| {
        IndexOfOthers(db.jobs, job, db.sessions[i].jobId);
      }
    }
  }

  lemma AppendCounted(db: Db, job: Job, session: Session)
    requires Counted(db) && JobIndex(db.jobs, job.id) < 0 && session.jobId == job.id
    requires job.attempt == 0 && job.plumbing == 0
    requires forall i :: 0 <= i < |db.sessions| ==> db.sessions[i].jobId != job.id
    ensures Counted(db.(jobs := db.jobs + [job], sessions := db.sessions + [session]))
  {
    hide SessionCount;
    var after := db.(jobs := db.jobs + [job], sessions := db.sessions + [session]);
    NoSessions(db.sessions, job.id);
    forall i | 0 <= i < |after.jobs|
      ensures SessionCount(after.sessions, after.jobs[i].id) == 1 + after.jobs[i].attempt + after.jobs[i].plumbing
    {
      CountAppend(db.sessions, session, after.jobs[i].id);
    }
  }

  lemma NobodysSession(db: Db, jobId: string)
    requires Rows(db) && JobIndex(db.jobs, jobId) < 0
    ensures forall i :: 0 <= i < |db.sessions| ==> db.sessions[i].jobId != jobId
  {
  }

  /** A retry session with a fresh handle, and one counter of its job up by one. */
  lemma RetryBooks(db: Db, k: nat, job: Job, session: Session)
    requires Books(db) && k < |db.jobs| && job.id == db.jobs[k].id && job.maxAttempts == db.jobs[k].maxAttempts
    requires db.jobs[k].attempt <= job.attempt <= job.maxAttempts
    requires db.jobs[k].plumbing <= job.plumbing <= DEFAULT_PLUMBING_RETRY_BUDGET
    requires job.attempt + job.plumbing == db.jobs[k].attempt + db.jobs[k].plumbing + 1
    requires session.jobId == job.id && Allotted(session.reserved, job) && !Allotted(session.reserved, db.jobs[k])
    ensures Books(db.(jobs := db.jobs[k := job], sessions := db.sessions + [session]))
  {
    RetryRows(db, k, job, session);
    hide Allotted, JobIndex, Rows;
    RetryCounted(db, k, job, session);
    RetryAllotted(db, k, job, session);
    RetryDistinct(db, k, session);
  }

  lemma RetryRows(db: Db, k: nat, job: Job, session: Session)
    requires Rows(db) && k < |db.jobs| && job.id == db.jobs[k].id && session.jobId == job.id
    ensures Rows(db.(jobs := db.jobs[k := job], sessions := db.sessions + [session]))
  {
    var after := db.(jobs := db.jobs[k := job], sessions := db.sessions + [session]);
    forall i | 0 <= i < |after.sessions| ensures JobIndex(after.jobs, after.sessions[i].jobId) >= 0 {
      if i < |db.sessions| {
        var m := JobIndex(db.jobs, db.sessions[i].jobId);
        assert after.jobs[m].id == db.sessions[i].jobId;
      } else {
        assert after.jobs[k].id == session.jobId;
      }
    }
  }

  lemma RetryCounted(db: Db, k: nat, job: Job, session: Session)
    requires Rows(db) && Counted(db)
    requires k < |db.jobs| && job.id == db.jobs[k].id && session.jobId == job.id
    requires job.attempt <= job.maxAttempts && job.plumbing <= DEFAULT_PLUMBING_RETRY_BUDGET
    requires job.attempt + job.plumbing == db.jobs[k].attempt + db.jobs[k].plumbing + 1
    ensures Counted(db.(jobs := db.jobs[k := job], sessions := db.sessions + [session]))
  {
    hide SessionCount, JobIndex;
    var after := db.(jobs := db.jobs[k := job], sessions := db.sessions + [session]);
    forall i | 0 <= i < |after.jobs|
      ensures SessionCount(after.sessions, after.jobs[i].id) == 1 + after.jobs[i].attempt + after.jobs[i].plumbing
    {
      CountAppend(db.sessions, session, after.jobs[i].id);
    }
  }

  lemma RetryAllotted(db: Db, k: nat, job: Job, session: Session)
    requires Rows(db) && HandlesAllotted(db) && k < |db.jobs| && job.id == db.jobs[k].id && session.jobId == job.id
    requires db.jobs[k].attempt <= job.attempt && db.jobs[k].plumbing <= job.plumbing
    requires Allotted(session.reserved, job)
    ensures HandlesAllotted(db.(jobs := db.jobs[k := job], sessions := db.sessions + [session]))
  {
    hide Allotted, JobIndex;
    var after := db.(jobs := db.jobs[k := job], sessions := db.sessions + [session]);
    forall i, j | 0 <= i < |after.sessions| && 0 <= j < |after.jobs| && after.sessions[i].jobId == after.jobs[j].id
      ensures Allotted(after.sessions[i].reserved, after.jobs[j])
    {
      if i < |db.sessions| {
        AllottedAlike(after.sessions[i].reserved, db.jobs[j], after.jobs[j]);
      }
    }
  }

  lemma RetryDistinct(db: Db, k: nat, session: Session)
    requires HandlesAllotted(db) && HandlesDistinct(db.sessions)
    requires k < |db.jobs| && session.jobId == db.jobs[k].id && !Allotted(session.reserved, db.jobs[k])
    ensures HandlesDistinct(db.sessions + [session])
  {
    hide Allotted;
    forall i | 0 <= i < |db.sessions| && db.sessions[i].jobId == session.jobId
      ensures db.sessions[i].reserved != session.reserved
    {
      assert Allotted(db.sessions[i].reserved, db.jobs[k]);
    }
  }

  lemma WorkHandleFresh(job: Job)
    ensures Allotted(AttemptId(job.id, job.attempt + 1), job.(attempt := job.attempt + 1))
    ensures !Allotted(AttemptId(job.id, job.attempt + 1), job)
  {
    hide AttemptId, PlumbingHandle;
    var handle := AttemptId(job.id, job.attempt + 1);
    forall n: nat | n <= job.attempt ensures handle != AttemptId(job.id, n) {
      AttemptIdInjective(job.id, job.attempt + 1, job.id, n);
    }
    forall a: nat, k: nat ensures handle != PlumbingHandle(job.id, a, k) {
      PlumbingIsNoAttempt(job.id, job.attempt + 1, job.id, a, k);
    }
  }

  lemma PlumbingHandleFresh(job: Job, attempt: nat)
    ensures Allotted(PlumbingHandle(job.id, attempt, job.plumbing + 1), job.(plumbing := job.plumbing + 1))
    ensures !Allotted(PlumbingHandle(job.id, attempt, job.plumbing + 1), job)
  {
    hide AttemptId, PlumbingHandle;
    var handle := PlumbingHandle(job.id, attempt, job.plumbing + 1);
    forall n: nat ensures handle != AttemptId(job.id, n) {
      PlumbingIsNoAttempt(job.id, n, job.id, attempt, job.plumbing + 1);
    }
    forall a: nat, k: nat | k <= job.plumbing ensures handle != PlumbingHandle(job.id, a, k) {
      PlumbingInjective(job.id, attempt, job.plumbing + 1, job.id, a, k);
    }
  }

  lemma WorkRetryBooks(db: Db, job: Snapshot, override_: Option<string>, sessionId: string, now: int)
    requires Books(db) && SnapshotOf(db, job)
    ensures Books(AllocateRetry(db, job, override_, sessionId, now).0)
  {
    hide Books, Allotted, AttemptId, RetryBase, SnapshotOf;
    var (after, granted) := AllocateRetry(db, job, override_, sessionId, now);
    if granted {
      var k := JobIndex(db.jobs, job.jobId);
      SnapshotMax(db, job, k);
      CountersAt(db, k);
      WorkHandleFresh(db.jobs[k]);
      RetryBooks(db, k, after.jobs[k], after.sessions[|db.sessions|]);
    }
  }

  lemma SnapshotMax(db: Db, job: Snapshot, k: nat)
    requires SnapshotOf(db, job) && k < |db.jobs| && db.jobs[k].id == job.jobId
    ensures db.jobs[k].maxAttempts == job.maxAttempts
  {
  }

  lemma CountersAt(db: Db, k: nat)
    requires Books(db) && k < |db.jobs|
    ensures db.jobs[k].attempt <= db.jobs[k].maxAttempts && db.jobs[k].plumbing <= DEFAULT_PLUMBING_RETRY_BUDGET
  {
  }

  lemma PlumbingRetryBooks(db: Db, job: Snapshot, override_: Option<string>, sessionId: string, now: int)
    requires Books(db)
    ensures Books(AllocatePlumbing(db, job, override_, sessionId, now).0)
  {
    hide Books, Allotted, PlumbingHandle, RetryBase;
    var (after, granted) := AllocatePlumbing(db, job, override_, sessionId, now);
    if granted {
      var k := JobIndex(db.jobs, job.jobId);
      CountersAt(db, k);
      PlumbingHandleFresh(db.jobs[k], job.attempt);
      RetryBooks(db, k, after.jobs[k], after.sessions[|db.sessions|]);
    }
  }

  lemma BooksStep(db: Db, step: Step, caps: Reservations.Caps)
    requires Books(db) && Enabled(db, step)
    ensures Books(Apply(db, step, caps))
  {
    hide Books, SameBooks;
    match step
    case Other(s) =>
      if s.ReserveJob? {
        ReserveBooks(db, s.plan, Reservations.CapOf(caps, s.plan.repo));
      } else {
        OtherSteps(db, s, caps);
        SameBooksKeeps(db, Reservations.Apply(db, s, caps));
      }
    case WorkRetry(job, override_, id, now) => WorkRetryBooks(db, job, override_, id, now);
    case PlumbingRetry(job, override_, id, now) => PlumbingRetryBooks(db, job, override_, id, now);
  }

  // ---------------------------------------------------------------- the main results

  lemma {:induction false} BooksAlong(db: Db, steps: seq<Step>, caps: Reservations.Caps, after: Db)
    requires Books(db) && Reach(db, steps, caps, after)
    ensures Books(after)
    decreases |steps|
  {
    hide Books, Enabled, Apply;
    if steps != [] {
      BooksStep(db, steps[0], caps);
      BooksAlong(Apply(db, steps[0], caps), steps[1..], caps, after);
    }
  }

  /** A handle is allotted to one job only. */
  lemma AllottedToOneJob(reserved: string, job: Job, other: Job)
    requires Allotted(reserved, job) && Allotted(reserved, other)
    ensures job.id == other.id
  {
    hide AttemptId, PlumbingHandle;
    forall m: nat, n: nat | reserved == AttemptId(job.id, m) == AttemptId(other.id, n) ensures job.id == other.id {
      AttemptIdInjective(job.id, m, other.id, n);
    }
    forall m: nat, a: nat, k: nat ensures AttemptId(job.id, m) != PlumbingHandle(other.id, a, k) {
      PlumbingIsNoAttempt(job.id, m, other.id, a, k);
    }
    forall m: nat, a: nat, k: nat ensures AttemptId(other.id, m) != PlumbingHandle(job.id, a, k) {
      PlumbingIsNoAttempt(other.id, m, job.id, a, k);
    }
    forall a: nat, k: nat, b: nat, l: nat | reserved == PlumbingHandle(job.id, a, k) == PlumbingHandle(other.id, b, l)
      ensures job.id == other.id
    {
      PlumbingInjective(job.id, a, k, other.id, b, l);
    }
  }

  /** Kept books mean that no two sessions were reserved under the same handle. */
  lemma HandlesArePairwiseDistinct(db: Db, m: nat, n: nat)
    requires Books(db) && m < n < |db.sessions|
    ensures db.sessions[m].reserved != db.sessions[n].reserved
  {
    hide JobIndex, Allotted, Counted;
    var i, j := JobIndex(db.jobs, db.sessions[m].jobId), JobIndex(db.jobs, db.sessions[n].jobId);
    assert Allotted(db.sessions[m].reserved, db.jobs[i]) && Allotted(db.sessions[n].reserved, db.jobs[j]);
    if db.sessions[m].reserved == db.sessions[n].reserved {
      AllottedToOneJob(db.sessions[m].reserved, db.jobs[i], db.jobs[j]);
    }
  }

  /** Over every interleaving, a job has one session per attempt and per plumbing retry, within both
      budgets, and no two sessions were ever reserved under the same handle. */
  lemma RetriesAreAccounted(db: Db, steps: seq<Step>, caps: Reservations.Caps, after: Db, i: nat)
    requires Reservations.Empty(db) && Reach(db, steps, caps, after) && i < |after.jobs|
    ensures SessionCount(after.sessions, after.jobs[i].id) == 1 + after.jobs[i].attempt + after.jobs[i].plumbing
    ensures after.jobs[i].attempt <= after.jobs[i].maxAttempts && after.jobs[i].plumbing <= 3
    ensures forall m, n :: 0 <= m < n < |after.sessions| ==> after.sessions[m].reserved != after.sessions[n].reserved
  {
    assert Books(db);
    BooksAlong(db, steps, caps, after);
    forall m, n | 0 <= m < n < |after.sessions| ensures after.sessions[m].reserved != after.sessions[n].reserved {
      HandlesArePairwiseDistinct(after, m, n);
    }
  }

  /** A job row keeps the base it was inserted with. */
  lemma {:induction false} BaseIsFixed(db: Db, steps: seq<Step>, caps: Reservations.Caps, after: Db, k: nat)
    requires Reach(db, steps, caps, after) && k < |db.jobs|
    ensures k < |after.jobs| && after.jobs[k].id == db.jobs[k].id && after.jobs[k].base == db.jobs[k].base
    decreases |steps|
  {
    if steps != [] {
      hide Enabled, Apply;
      BaseStep(db, steps[0], caps, k);
      BaseIsFixed(Apply(db, steps[0], caps), steps[1..], caps, after, k);
    }
  }

  lemma BaseStep(db: Db, step: Step, caps: Reservations.Caps, k: nat)
    requires Enabled(db, step) && k < |db.jobs|
    ensures var after := Apply(db, step, caps);
      k < |after.jobs| && after.jobs[k].id == db.jobs[k].id && after.jobs[k].base == db.jobs[k].base
  {
    hide RetryBase, AttemptId, PlumbingHandle, CheckScope, ActiveJobCount, SnapshotOf;
    if step.Other? && !step.step.ReserveJob? {
      OtherSteps(db, step.step, caps);
    }
  }

  /** A granted retry without an override builds on the job row's recorded base, however stale the
      caller's copy is. */
  lemma RetryKeepsBase(db: Db, job: Snapshot, override_: Option<string>, sessionId: string, now: int, k: nat)
    requires k == JobIndex(db.jobs, job.jobId) && db.jobs[k].base !in {None, Some("")} && override_ in {None, Some("")}
    ensures var (after, granted) := AllocateRetry(db, job, override_, sessionId, now);
      granted ==>
        && after.sessions == db.sessions + [after.sessions[|db.sessions|]]
        && after.sessions[|db.sessions|].base == db.jobs[k].base
    ensures var (after, granted) := AllocatePlumbing(db, job, override_, sessionId, now);
      granted ==>
        && after.sessions == db.sessions + [after.sessions[|db.sessions|]]
        && after.sessions[|db.sessions|].base == db.jobs[k].base
  {
    hide AttemptId, PlumbingHandle, LegacyBase;
  }

  /** Exactly when a retry is granted: the caller's counter is below its budget and is still the row's. */
  lemma RetryGranted(db: Db, job: Snapshot, override_: Option<string>, sessionId: string, now: int)
    requires Rows(db)
    ensures AllocateRetry(db, job, override_, sessionId, now).1 <==>
      && job.attempt < job.maxAttempts
      && exists i :: 0 <= i < |db.jobs| && db.jobs[i].id == job.jobId && db.jobs[i].attempt == job.attempt
    ensures AllocatePlumbing(db, job, override_, sessionId, now).1 <==>
      && job.plumbing < 3
      && exists i :: 0 <= i < |db.jobs| && db.jobs[i].id == job.jobId && db.jobs[i].plumbing == job.plumbing
    ensures !AllocateRetry(db, job, override_, sessionId, now).1 ==>
      AllocateRetry(db, job, override_, sessionId, now).0 == db
    ensures !AllocatePlumbing(db, job, override_, sessionId, now).1 ==>
      AllocatePlumbing(db, job, override_, sessionId, now).0 == db
  {
    hide AttemptId, PlumbingHandle, RetryBase;
  }
}
