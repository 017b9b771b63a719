/** One project's pi orchestrators and the dispatchers that feed them
    (scripts/adapters/pi_rpc_adapter.py): an inbox of marker files, a pid file, and one lock file.

    Any number of dispatchers and orchestrators interleave. A locked section is several steps, since
    claims are made outside the lock too; every file operation is one step. Process ids are not reused, a
    process that is gone may answer a probe until it is reaped, and orchestrators leave only by the idle exit or
    because their first claim came up empty. */
module OrchestratorInbox {
  import opened Wrappers

  /** Marker names start with a timestamp, so a smaller name is an older entry. */
  type Entry = nat
  type Pid = nat

  /** Where an orchestrator is in its loop. A claim first lists the inbox, then tries `rest` one by one. */
  datatype Phase =
    | Starting
    | First(rest: seq<Entry>, batch: seq<Entry>)
    | Working
    | Claiming(rest: seq<Entry>, batch: seq<Entry>)
    | Idle
    | Closing(rest: seq<Entry>, batch: seq<Entry>)
    | Leaving
    | Gone

  /** Who holds the lock file, and how far it is. Only one dispatcher can be inside at a time. */
  datatype Lock =
    | Free
    | Probing(read: Option<Pid>)
    | Trusting(pid: Pid)
    | Queueing
    | Spawning
    | Publishing(child: Pid)
    | ClosingBy(owner: Pid)

  datatype Claim = Claim(taker: Pid, entry: Entry)

  datatype State = State(
    inbox: set<Entry>,
    enqueued: set<Entry>,
    claims: seq<Claim>,
    pidFile: Option<Pid>,
    procs: map<Pid, Phase>,
    lock: Lock)

  datatype Step =
    | ReadPid
    | Probe(answers: bool)
    | Enqueue(entry: Entry)
    | Spawn(child: Pid)
    | Publish
    | List(p: Pid, listing: seq<Entry>)
    | CloseSection(p: Pid, listing: seq<Entry>)
    | TakeOne(p: Pid)
    | EndClaim(p: Pid)
    | Cleanup(p: Pid)

  ghost predicate Alive(s: State, p: Pid) {
    p in s.procs && !s.procs[p].Gone?
  }

  /** What a signal sent to the pid may tell. A process that is there answers; one that is gone may still answer,
      until it is reaped; a pid that never was does not. */
  ghost predicate MayAnswer(s: State, read: Option<Pid>, answers: bool) {
    && (answers ==> read.Some? && read.value in s.procs)
    && (read.Some? && Alive(s, read.value) ==> answers)
  }

  /** The directory listing, oldest entry first. */
  ghost predicate ListingOf(inbox: set<Entry>, listing: seq<Entry>) {
    && (forall i, j :: 0 <= i < j < |listing| ==> listing[i] < listing[j])
    && forall e :: e in listing <==> e in inbox
  }

  ghost predicate Taking(phase: Phase) {
    phase.First? || phase.Claiming? || phase.Closing?
  }

  ghost predicate Enabled(s: State, step: Step) {
    match step
    case ReadPid => s.lock.Free?
    case Probe(answers) => s.lock.Probing? && MayAnswer(s, s.lock.read, answers)
    case Enqueue(e) => (s.lock.Trusting? || s.lock.Queueing?) && e !in s.enqueued
    case Spawn(child) => s.lock.Spawning? && child !in s.procs
    case Publish => s.lock.Publishing?
    case List(p, listing) =>
      && p in s.procs && (s.procs[p].Starting? || s.procs[p].Working? || s.procs[p].Idle?)
      && ListingOf(s.inbox, listing)
    case CloseSection(p, listing) =>
      p in s.procs && s.procs[p].Idle? && s.lock.Free? && ListingOf(s.inbox, listing)
    case TakeOne(p) => p in s.procs && Taking(s.procs[p]) && |s.procs[p].rest| > 0
    case EndClaim(p) => p in s.procs && Taking(s.procs[p]) && |s.procs[p].rest| == 0
    case Cleanup(p) => p in s.procs && s.procs[p].Leaving?
  }

  /** The phase after one attempt to read and unlink `rest[0]`. */
  ghost function Took(phase: Phase, got: bool): Phase
    requires Taking(phase) && |phase.rest| > 0
  {
    var batch := if got then phase.batch + [phase.rest[0]] else phase.batch;
    match phase
    case First(rest, _) => First(rest[1..], batch)
    case Claiming(rest, _) => Claiming(rest[1..], batch)
    case Closing(rest, _) => Closing(rest[1..], batch)
  }

  ghost function Apply(s: State, step: Step): State
    requires Enabled(s, step)
  {
    match step
    // dispatch(), lines 269-307
    case ReadPid => s.(lock := Probing(s.pidFile))
    case Probe(answers) => if answers then s.(lock := Trusting(s.lock.read.value)) else s.(lock := Queueing)
    case Enqueue(e) =>
      s.(inbox := s.inbox + {e}, enqueued := s.enqueued + {e}, lock := if s.lock.Trusting? then Free else Spawning)
    case Spawn(child) => s.(procs := s.procs[child := Starting], lock := Publishing(child))
    case Publish => s.(pidFile := Some(s.lock.child), lock := Free)
    // run_orchestrator(): the first claim, the claims between turns and while idle
    case List(p, listing) =>
      s.(procs := s.procs[p := if s.procs[p].Starting? then First(listing, []) else Claiming(listing, [])])
    case CloseSection(p, listing) => s.(procs := s.procs[p := Closing(listing, [])], lock := ClosingBy(p))
    // _claim_ready_set(): unlink decides who gets an entry
    case TakeOne(p) =>
      var e := s.procs[p].rest[0];
      var got := e in s.inbox;
      s.(inbox := s.inbox - {e},
         claims := if got then s.claims + [Claim(p, e)] else s.claims,
         procs := s.procs[p := Took(s.procs[p], got)])
    case EndClaim(p) =>
      (match s.procs[p]
       case First(_, batch) => s.(procs := s.procs[p := if batch == [] then Gone else Working])
       case Claiming(_, batch) => s.(procs := s.procs[p := if batch == [] then Idle else Working])
       case Closing(_, batch) =>
         if batch == [] then s.(procs := s.procs[p := Leaving], pidFile := None, lock := Free)
         else s.(procs := s.procs[p := Working], lock := Free))
    // the finally block, outside the lock
    case Cleanup(p) => s.(procs := s.procs[p := Gone], pidFile := None)
  }

  ghost predicate Initial(s: State) {
    && s.inbox == {} && s.enqueued == {} && s.claims == []
    && s.procs == map[] && s.lock == Free
  }

  /** `steps` lead from `s` to `t`. */
  ghost predicate Reach(s: State, steps: seq<Step>, t: State)
    decreases |steps|
  {
    if |steps| == 0 then s == t
    else Enabled(s, steps[0]) && Reach(Apply(s, steps[0]), steps[1..], t)
  }

  // ---------------------------------------------------------------- what holds in every reachable state

  /** In the loop for good: such an orchestrator lists the inbox again before it can leave. */
  ghost predicate InLoop(phase: Phase) {
    || phase.Working? || phase.Claiming? || phase.Idle? || phase.Closing?
    || (phase.First? && phase.batch != [])
  }

  ghost predicate SomeInLoop(s: State) {
    exists p :: p in s.procs && InLoop(s.procs[p])
  }

  /** `p` has yet to make its first claim, and that claim can still succeed. */
  ghost predicate FirstClaimAhead(s: State, p: Pid) {
    && p in s.procs
    && ((s.procs[p].Starting? && s.inbox != {})
        || (s.procs[p].First? && exists e :: e in s.procs[p].rest && e in s.inbox))
  }

  /** Some orchestrator that will still claim is there: one in its loop, one that has not listed the
      inbox yet, or one whose first listing still holds a queued entry. */
  ghost predicate SomeoneWillClaim(s: State) {
    SomeInLoop(s) || exists p :: FirstClaimAhead(s, p)
  }

  /** A dispatcher that finds `p` alive may rely on it. */
  ghost predicate Reliable(s: State, p: Pid) {
    SomeInLoop(s) || FirstClaimAhead(s, p)
  }

  /** No packet is stranded: somebody will claim, or the dispatcher in the lock is about to spawn. */
  ghost predicate NoStrand(s: State) {
    s.inbox != {} ==> SomeoneWillClaim(s) || s.lock.Spawning?
  }

  ghost predicate PidFileReliable(s: State) {
    s.pidFile.Some? && s.pidFile.value in s.procs ==> Reliable(s, s.pidFile.value)
  }

  ghost predicate LockReliable(s: State) {
    match s.lock
    case Probing(Some(p)) => p in s.procs ==> Reliable(s, p)
    case Trusting(p) => Reliable(s, p)
    case Spawning => s.inbox != {} || SomeInLoop(s)
    case Publishing(p) => p in s.procs ==> Reliable(s, p)
    case _ => true
  }

  /** Only the lock's owner is in its closing section, and nothing is queued behind its listing. */
  ghost predicate ClosingLocked(s: State) {
    && (forall p :: p in s.procs && s.procs[p].Closing? ==> s.lock == ClosingBy(p))
    && (s.lock.ClosingBy? ==>
          && s.lock.owner in s.procs && s.procs[s.lock.owner].Closing?
          && forall e :: e in s.inbox ==> e in s.procs[s.lock.owner].rest)
  }

  ghost function Claimed(claims: seq<Claim>): set<Entry> {
    set c | c in claims :: c.entry
  }

  /** Every entry ever queued is still queued or was claimed, and nothing is claimed twice. */
  ghost predicate AtMostOnce(s: State) {
    && s.enqueued == s.inbox + Claimed(s.claims)
    && s.inbox !! Claimed(s.claims)
    && forall i, j :: 0 <= i < j < |s.claims| ==> s.claims[i].entry != s.claims[j].entry
  }

  ghost predicate Inv(s: State) {
    NoStrand(s) && PidFileReliable(s) && LockReliable(s) && ClosingLocked(s) && AtMostOnce(s)
  }

  /** The one step that takes an orchestrator out of its loop. */
  ghost predicate LeavesLoop(s: State, step: Step) {
    step.EndClaim? && step.p in s.procs && s.procs[step.p].Closing? && s.procs[step.p].batch == []
  }

  lemma LoopStays(s: State, step: Step)
    requires Enabled(s, step) && !LeavesLoop(s, step) && SomeInLoop(s)
    ensures SomeInLoop(Apply(s, step))
  {
    var p :| p in s.procs && InLoop(s.procs[p]);
    var s' := Apply(s, step);
    assert p in s'.procs && InLoop(s'.procs[p]);
  }

  /** Whoever gets an entry is in the loop from then on. */
  lemma TakerInLoop(s: State, p: Pid)
    requires Enabled(s, TakeOne(p)) && s.procs[p].rest[0] in s.inbox
    ensures SomeInLoop(Apply(s, TakeOne(p)))
  {
    var s' := Apply(s, TakeOne(p));
    assert s'.procs[p] == Took(s.procs[p], true);
    assert p in s'.procs && InLoop(s'.procs[p]);
  }

  lemma ReliableStays(s: State, step: Step, p: Pid)
    requires Enabled(s, step) && !LeavesLoop(s, step) && Reliable(s, p)
    ensures Reliable(Apply(s, step), p)
  {
    var s' := Apply(s, step);
    if SomeInLoop(s) {
      LoopStays(s, step);
    } else if s.procs[p].Starting? {
      var e :| e in s.inbox;
      if step.TakeOne? && s.procs[step.p].rest[0] in s.inbox {
        TakerInLoop(s, step.p);
      } else if step.List? && step.p == p {
        assert e in s'.procs[p].rest && e in s'.inbox;
      } else {
        assert e in s'.inbox;
      }
    } else {
      var e :| e in s.procs[p].rest && e in s.inbox;
      if step.TakeOne? && s.procs[step.p].rest[0] in s.inbox {
        TakerInLoop(s, step.p);
      } else {
        assert e in s'.inbox && s'.procs[p].First?;
        if step.TakeOne? && step.p == p {
          assert s.procs[p].rest == [s.procs[p].rest[0]] + s.procs[p].rest[1..];
          assert e in s'.procs[p].rest;
        }
      }
    }
  }

  /** Leaving the loop means the inbox was seen empty under the lock, and takes the pid file along. */
  lemma LeavingIsClean(s: State, step: Step)
    requires Enabled(s, step) && ClosingLocked(s) && LeavesLoop(s, step)
    ensures s.inbox == {} && Apply(s, step).inbox == {}
    ensures Apply(s, step).pidFile == None && Apply(s, step).lock == Free
  {
    assert s.lock == ClosingBy(step.p) && s.procs[step.p].rest == [];
  }

  lemma WillClaimStays(s: State, step: Step)
    requires Enabled(s, step) && !LeavesLoop(s, step) && SomeoneWillClaim(s)
    ensures SomeoneWillClaim(Apply(s, step))
  {
    if SomeInLoop(s) {
      LoopStays(s, step);
    } else {
      var p :| FirstClaimAhead(s, p);
      ReliableStays(s, step, p);
    }
  }

  lemma NoStrandStep(s: State, step: Step)
    requires Inv(s) && Enabled(s, step)
    ensures NoStrand(Apply(s, step))
  {
    var s' := Apply(s, step);
    if LeavesLoop(s, step) {
      LeavingIsClean(s, step);
    } else if SomeoneWillClaim(s) {
      WillClaimStays(s, step);
    } else if s'.inbox != {} {
      if step.Enqueue? && s.lock.Trusting? {
        assert Reliable(s, s.lock.pid);
        assert SomeoneWillClaim(s);
      } else if step.Spawn? {
        assert FirstClaimAhead(s', step.child);
      } else if step.TakeOne? && s.procs[step.p].rest[0] in s.inbox {
        TakerInLoop(s, step.p);
      }
    }
  }

  lemma PidFileStep(s: State, step: Step)
    requires Inv(s) && Enabled(s, step)
    ensures PidFileReliable(Apply(s, step))
  {
    var s' := Apply(s, step);
    if s'.pidFile.Some? && s'.pidFile.value in s'.procs {
      var p := s'.pidFile.value;
      if LeavesLoop(s, step) {
        LeavingIsClean(s, step);
      } else if step.Publish? {
        ReliableStays(s, step, p);
      } else if step.Spawn? && step.child == p {
        SpawnedIsReliable(s, p);
      } else {
        ReliableStays(s, step, p);
      }
    }
  }

  lemma SpawnedIsReliable(s: State, child: Pid)
    requires Inv(s) && Enabled(s, Spawn(child))
    ensures Reliable(Apply(s, Spawn(child)), child)
  {
    if SomeInLoop(s) {
      LoopStays(s, Spawn(child));
    }
  }

  lemma LockStep(s: State, step: Step)
    requires Inv(s) && Enabled(s, step)
    ensures LockReliable(Apply(s, step))
  {
    var s' := Apply(s, step);
    if LeavesLoop(s, step) {
      LeavingIsClean(s, step);
    } else {
      match s'.lock
      case Probing(Some(p)) =>
        if p in s'.procs {
          ReliableStays(s, step, p);
        }
      case Trusting(p) => ReliableStays(s, step, p);
      case Spawning =>
        if SomeInLoop(s) {
          LoopStays(s, step);
        } else if step.TakeOne? && s.procs[step.p].rest[0] in s.inbox {
          TakerInLoop(s, step.p);
        }
      case Publishing(p) =>
        if step.Spawn? {
          SpawnedIsReliable(s, p);
        } else if p in s'.procs {
          ReliableStays(s, step, p);
        }
      case _ =>
    }
  }

  lemma ClosingStep(s: State, step: Step)
    requires Inv(s) && Enabled(s, step)
    ensures ClosingLocked(Apply(s, step))
  {
    var s' := Apply(s, step);
    if s'.lock.ClosingBy? && step.TakeOne? && s.lock == s'.lock {
      var rest := s.procs[step.p].rest;
      assert rest == [rest[0]] + rest[1..];
    }
  }

  lemma AtMostOnceStep(s: State, step: Step)
    requires Inv(s) && Enabled(s, step)
    ensures AtMostOnce(Apply(s, step))
  {
    var s' := Apply(s, step);
    if step.TakeOne? && s.procs[step.p].rest[0] in s.inbox {
      var e := s.procs[step.p].rest[0];
      assert s'.claims == s.claims + [Claim(step.p, e)];
      assert Claimed(s'.claims) == Claimed(s.claims) + {e};
      forall i | 0 <= i < |s.claims| ensures s.claims[i].entry != e {
        assert s.claims[i] in s.claims;
        assert s.claims[i].entry in Claimed(s.claims);
      }
    }
  }

  lemma InvStep(s: State, step: Step)
    requires Inv(s) && Enabled(s, step)
    ensures Inv(Apply(s, step))
  {
    NoStrandStep(s, step);
    PidFileStep(s, step);
    LockStep(s, step);
    ClosingStep(s, step);
    AtMostOnceStep(s, step);
  }

  // ---------------------------------------------------------------- over whole runs

  lemma {:induction false} InvAlong(s: State, steps: seq<Step>, t: State)
    requires Inv(s) && Reach(s, steps, t)
    ensures Inv(t)
    decreases |steps|
  {
    if |steps| > 0 {
      InvStep(s, steps[0]);
      InvAlong(Apply(s, steps[0]), steps[1..], t);
    }
  }

  /** No interleaving strands a packet: while one is queued, an orchestrator that will still claim is
      there, or the dispatcher holding the lock is about to spawn one. */
  lemma NeverStranded(s: State, steps: seq<Step>, t: State)
    requires Initial(s) && Reach(s, steps, t)
    ensures t.inbox != {} ==> SomeoneWillClaim(t) || t.lock.Spawning?
  {
    InvAlong(s, steps, t);
  }

  /** Whatever the number of consumers, no packet is claimed twice and none is lost: what was ever
      queued is what is still queued plus what was claimed, once each. */
  lemma ClaimedAtMostOnce(s: State, steps: seq<Step>, t: State)
    requires Initial(s) && Reach(s, steps, t)
    ensures t.enqueued == t.inbox + Claimed(t.claims) && t.inbox !! Claimed(t.claims)
    ensures forall i, j :: 0 <= i < j < |t.claims| ==> t.claims[i].entry != t.claims[j].entry
  {
    InvAlong(s, steps, t);
  }

  /** An orchestrator leaves its loop only from an empty inbox. */
  lemma LeavesOnlyWhenEmpty(s: State, steps: seq<Step>, t: State, step: Step)
    requires Initial(s) && Reach(s, steps, t) && Enabled(t, step) && LeavesLoop(t, step)
    ensures t.inbox == {}
  {
    InvAlong(s, steps, t);
    LeavingIsClean(t, step);
  }

  // ---------------------------------------------------------------- what a dispatch is

  /** How far the dispatcher inside the lock is. */
  datatype Stage = Outside | HasRead | Answered | Unanswered | Queued | Spawned(child: Pid)

  /** A dispatch reads the pid file and probes. Answered, it queues its packet and is done; unanswered, it queues the
      packet, spawns a process and publishes its pid. Steps of orchestrators come anywhere in between. */
  function After(stage: Stage, step: Step): Option<Stage> {
    match step
    case ReadPid => if stage == Outside then Some(HasRead) else None
    case Probe(answers) => if stage == HasRead then Some(if answers then Answered else Unanswered) else None
    case Enqueue(_) =>
      if stage == Answered then Some(Outside) else if stage == Unanswered then Some(Queued) else None
    case Spawn(child) => if stage == Queued then Some(Spawned(child)) else None
    case Publish => if stage.Spawned? then Some(Outside) else None
    case _ => Some(stage)
  }

  function Stages(stage: Stage, steps: seq<Step>): Option<Stage>
    decreases |steps|
  {
    if steps == [] then Some(stage)
    else
      var next := After(stage, steps[0]);
      if next.None? then None else Stages(next.value, steps[1..])
  }

  /** The stage agrees with the lock. */
  ghost predicate AtStage(lock: Lock, stage: Stage) {
    match stage
    case Outside => lock.Free? || lock.ClosingBy?
    case HasRead => lock.Probing?
    case Answered => lock.Trusting?
    case Unanswered => lock.Queueing?
    case Queued => lock.Spawning?
    case Spawned(child) => lock == Publishing(child)
  }

  lemma StageStep(s: State, stage: Stage, step: Step)
    requires Inv(s) && Enabled(s, step) && AtStage(s.lock, stage)
    ensures After(stage, step).Some? && AtStage(Apply(s, step).lock, After(stage, step).value)
    ensures step.Publish? ==> stage.Spawned? && Apply(s, step).pidFile == Some(stage.child)
  {
    hide NoStrand, PidFileReliable, LockReliable, AtMostOnce;
  }

  lemma {:induction false} StagesAlong(s: State, stage: Stage, steps: seq<Step>, t: State)
    requires Inv(s) && AtStage(s.lock, stage) && Reach(s, steps, t)
    ensures Stages(stage, steps).Some? && AtStage(t.lock, Stages(stage, steps).value)
    decreases |steps|
  {
    if steps != [] {
      hide Inv, Enabled, Apply, AtStage;
      StageStep(s, stage, steps[0]);
      InvStep(s, steps[0]);
      StagesAlong(Apply(s, steps[0]), After(stage, steps[0]).value, steps[1..], t);
    }
  }

  /** Over every run each dispatch goes that way, one at a time: a process is spawned only after a probe without an
      answer and with a packet queued for it, and its pid is the one published. */
  lemma DispatchesInTurn(s: State, steps: seq<Step>, t: State)
    requires Initial(s) && Reach(s, steps, t)
    ensures Stages(Outside, steps).Some?
    ensures forall child :: Enabled(t, Spawn(child)) ==> Stages(Outside, steps) == Some(Queued)
    ensures Enabled(t, Publish) ==>
      Stages(Outside, steps).value.Spawned?
      && Apply(t, Publish).pidFile == Some(Stages(Outside, steps).value.child)
  {
    StagesAlong(s, Outside, steps, t);
    hide Stages, Reach;
  }

  /** What a process can do next. A first claim that hands out nothing ends it, a later one leaves it idle, and the one
      under the lock makes it leave; a claim that hands out something sets it to work. */
  ghost predicate Follows(before: Phase, after: Phase) {
    match before
    case Starting => after.First? && after.batch == []
    case First(rest, batch) =>
      if rest != [] then after.First? && Shorter(before, after) else after == if batch == [] then Gone else Working
    case Working => after.Claiming? && after.batch == []
    case Claiming(rest, batch) =>
      if rest != [] then after.Claiming? && Shorter(before, after) else after == if batch == [] then Idle else Working
    case Idle => (after.Claiming? || after.Closing?) && after.batch == []
    case Closing(rest, batch) =>
      if rest != [] then after.Closing? && Shorter(before, after) else after == if batch == [] then Leaving else Working
    case Leaving => after == Gone
    case Gone => false
  }

  /** One listed entry was tried, and handed out or not. */
  ghost predicate Shorter(before: Phase, after: Phase)
    requires Taking(before) && Taking(after)
  {
    && before.rest != [] && after.rest == before.rest[1..]
    && after.batch in {before.batch, before.batch + [before.rest[0]]}
  }

  /** Every step leaves a process as it is or takes it to what can follow. A process that leaves its loop, and one that
      is gone after that, has removed the pid file. */
  lemma ProcessesTell(s: State, step: Step, p: Pid)
    requires Enabled(s, step) && p in s.procs
    ensures var t := Apply(s, step);
      && p in t.procs && (t.procs[p] == s.procs[p] || Follows(s.procs[p], t.procs[p]))
      && (t.procs[p] != s.procs[p] && t.procs[p].Leaving? ==> t.pidFile == None && t.lock == Free)
      && (s.procs[p].Leaving? && t.procs[p].Gone? ==> t.pidFile == None)
  {
  }

  // ---------------------------------------------------------------- queued packets can always be claimed

  lemma {:induction false} ReachBoth(s: State, a: seq<Step>, t: State, b: seq<Step>, u: State)
    requires Reach(s, a, t) && Reach(t, b, u)
    ensures Reach(s, a + b, u)
    decreases |a|
  {
    if |a| == 0 {
      assert a + b == b;
    } else {
      assert (a + b)[0] == a[0] && (a + b)[1..] == a[1..] + b;
      ReachBoth(Apply(s, a[0]), a[1..], t, b, u);
    }
  }

  lemma ReachOne(s: State, step: Step)
    requires Enabled(s, step)
    ensures Reach(s, [step], Apply(s, step))
  {
    assert [step][1..] == [];
  }

  ghost predicate NoNewPackets(steps: seq<Step>) {
    forall i :: 0 <= i < |steps| ==> !steps[i].Enqueue?
  }

  function Elems(rest: seq<Entry>): set<Entry> {
    set e | e in rest
  }

  /** An uninterrupted claim takes everything of its listing that is still there. */
  lemma {:induction false} Sweep(s: State, p: Pid) returns (steps: seq<Step>, t: State)
    requires p in s.procs && Taking(s.procs[p])
    ensures Reach(s, steps, t) && NoNewPackets(steps)
    ensures t.inbox == s.inbox - Elems(s.procs[p].rest)
    ensures p in t.procs && Taking(t.procs[p]) && t.procs[p].rest == [] && t.lock == s.lock
    ensures s.procs[p].First? == t.procs[p].First? && s.procs[p].Closing? == t.procs[p].Closing?
    ensures s.procs[p].batch != [] || s.inbox * Elems(s.procs[p].rest) != {} ==> t.procs[p].batch != []
    decreases |s.procs[p].rest|
  {
    var rest := s.procs[p].rest;
    if |rest| == 0 {
      steps, t := [], s;
    } else {
      var s1 := Apply(s, TakeOne(p));
      assert rest == [rest[0]] + rest[1..];
      assert Elems(rest) == {rest[0]} + Elems(rest[1..]);
      assert s1.procs[p] == Took(s.procs[p], rest[0] in s.inbox);
      steps, t := Sweep(s1, p);
      ReachOne(s, TakeOne(p));
      ReachBoth(s, [TakeOne(p)], s1, steps, t);
      steps := [TakeOne(p)] + steps;
    }
  }

  predicate IsOldest(entries: set<Entry>, e: Entry) {
    e in entries && forall o :: o in entries ==> e <= o
  }

  function Oldest(entries: set<Entry>): (e: Entry)
    requires entries != {}
    ensures IsOldest(entries, e)
  {
    HasOldest(entries);
    var e :| e in entries && IsOldest(entries, e);
    e
  }

  function SortedEntries(entries: set<Entry>): (listing: seq<Entry>)
    ensures forall e :: e in listing <==> e in entries
    ensures forall i, j :: 0 <= i < j < |listing| ==> listing[i] < listing[j]
    decreases |entries|
  {
    if entries == {} then []
    else
      var e := Oldest(entries);
      var younger := SortedEntries(entries - {e});
      assert forall i :: 0 <= i < |younger| ==> younger[i] in younger;
      [e] + younger
  }

  lemma {:induction false} HasOldest(entries: set<Entry>)
    requires entries != {}
    ensures exists e :: IsOldest(entries, e)
    decreases |entries|
  {
    var x :| x in entries;
    var others := entries - {x};
    assert forall o :: o in entries ==> o == x || o in others;
    if others == {} {
      assert IsOldest(entries, x);
    } else {
      HasOldest(others);
      var e :| IsOldest(others, e);
      assert IsOldest(entries, if x < e then x else e);
    }
  }

  /** One fresh listing, claimed without interruption, empties the inbox. */
  lemma ListAndSweep(s: State, p: Pid) returns (steps: seq<Step>, t: State)
    requires p in s.procs && (s.procs[p].Starting? || s.procs[p].Working? || s.procs[p].Idle?)
    ensures Reach(s, steps, t) && NoNewPackets(steps) && t.inbox == {}
  {
    var list := List(p, SortedEntries(s.inbox));
    var s1 := Apply(s, list);
    var rest: seq<Step>;
    rest, t := Sweep(s1, p);
    assert Elems(s1.procs[p].rest) == s.inbox;
    ReachOne(s, list);
    ReachBoth(s, [list], s1, rest, t);
    steps := [list] + rest;
  }

  /** A process in the middle of a claim that will keep it in the loop can finish it and list again. */
  lemma FinishAndSweep(s: State, p: Pid) returns (steps: seq<Step>, t: State)
    requires Inv(s) && p in s.procs && Taking(s.procs[p])
    requires s.procs[p].First? ==> s.procs[p].batch != [] || FirstClaimAhead(s, p)
    ensures Reach(s, steps, t) && NoNewPackets(steps) && t.inbox == {}
  {
    var s1: State;
    steps, s1 := Sweep(s, p);
    InvAlong(s, steps, s1);
    if s1.procs[p].Closing? {
      t := s1;
      assert s1.lock == ClosingBy(p);
    } else {
      if FirstClaimAhead(s, p) {
        var e :| e in s.procs[p].rest && e in s.inbox;
        assert e in s.inbox * Elems(s.procs[p].rest);
      }
      var end := EndClaim(p);
      var s2 := Apply(s1, end);
      ReachOne(s1, end);
      ReachBoth(s, steps, s1, [end], s2);
      var more: seq<Step>;
      more, t := ListAndSweep(s2, p);
      ReachBoth(s, steps + [end], s2, more, t);
      steps := steps + [end] + more;
    }
  }

  /** From every reachable state the processes already there, or the one about to be spawned, can
      claim every queued packet without a new dispatch. */
  lemma QueuedPacketsCanBeClaimed(s: State, before: seq<Step>, t: State, child: Pid)
    returns (steps: seq<Step>, u: State)
    requires Initial(s) && Reach(s, before, t) && child !in t.procs
    ensures Reach(t, steps, u) && NoNewPackets(steps) && u.inbox == {}
  {
    InvAlong(s, before, t);
    if t.inbox == {} {
      steps, u := [], t;
    } else if p :| p in t.procs && InLoop(t.procs[p]) {
      if Taking(t.procs[p]) {
        steps, u := FinishAndSweep(t, p);
      } else {
        steps, u := ListAndSweep(t, p);
      }
    } else if p :| FirstClaimAhead(t, p) {
      if t.procs[p].Starting? {
        steps, u := ListAndSweep(t, p);
      } else {
        steps, u := FinishAndSweep(t, p);
      }
    } else {
      var t1 := Apply(t, Spawn(child));
      ReachOne(t, Spawn(child));
      steps, u := ListAndSweep(t1, child);
      ReachBoth(t, [Spawn(child)], t1, steps, u);
      steps := [Spawn(child)] + steps;
    }
  }

  // ---------------------------------------------------------------- the claim itself

  /** The paths an uncontended claim hands out: what the listed markers hold, blank ones left out. */
  function PathsOf(files: map<Entry, string>, listing: seq<Entry>): seq<string>
    requires forall e :: e in listing ==> e in files
  {
    if |listing| == 0 then []
    else
      var front := PathsOf(files, listing[..|listing| - 1]);
      var text := files[listing[|listing| - 1]];
      if text == "" then front else front + [text]
  }

  /** What the other processes do to the directory between two unlinks of ours: markers they take, and markers
      they add. */
  datatype Change = Change(removed: set<Entry>, added: map<Entry, string>)

  /** The directory after the first `n` changes, were it not for our own unlinks. */
  function Changed(files: map<Entry, string>, others: nat -> Change, n: nat): map<Entry, string> {
    if n == 0 then files
    else Changed(files, others, n - 1) - others(n - 1).removed + others(n - 1).added
  }

  function Lost(others: nat -> Change, n: nat): set<Entry> {
    if n == 0 then {} else Lost(others, n - 1) + others(n - 1).removed
  }

  /** The entries of a listing that nobody else had unlinked when their turn came. */
  function Taken(listing: seq<Entry>, others: nat -> Change): (r: seq<Entry>)
    ensures forall e :: e in r ==> e in listing
  {
    if listing == [] then []
    else
      var last := listing[|listing| - 1];
      Taken(listing[..|listing| - 1], others) + (if last in Lost(others, |listing|) then [] else [last])
  }

  /** Marker names are never reused. */
  ghost predicate FreshNames(files: map<Entry, string>, others: nat -> Change) {
    forall i, e :: e in others(i).added ==> e !in files
  }

  /** A marker keeps its content until somebody unlinks it. */
  lemma {:induction false} StaysUntilLost(files: map<Entry, string>, others: nat -> Change, n: nat, e: Entry)
    requires FreshNames(files, others) && e in files
    ensures e in Changed(files, others, n) <==> e !in Lost(others, n)
    ensures e in Changed(files, others, n) ==> Changed(files, others, n)[e] == files[e]
  {
    if n > 0 {
      StaysUntilLost(files, others, n - 1, e);
      assert e !in others(n - 1).added;
    }
  }

  /** The directory of a claim that has tried the first `i` entries of its listing. */
  function Tried(files: map<Entry, string>, others: nat -> Change, listing: seq<Entry>, i: nat): map<Entry, string>
    requires i <= |listing|
  {
    Changed(files, others, i) - Elems(listing[..i])
  }

  /** The next entry is still there exactly when nobody else took it, and trying it leaves the next directory. */
  lemma TryNext(files: map<Entry, string>, others: nat -> Change, listing: seq<Entry>, i: nat)
    requires i < |listing| && FreshNames(files, others)
    requires forall e :: e in listing ==> e in files
    requires forall j, k :: 0 <= j < k < |listing| ==> listing[j] < listing[k]
    ensures var seen := Tried(files, others, listing, i) - others(i).removed + others(i).added;
      && (listing[i] in seen <==> listing[i] !in Lost(others, i + 1))
      && (listing[i] in seen ==> seen[listing[i]] == files[listing[i]])
      && seen - {listing[i]} == Tried(files, others, listing, i + 1)
  {
    var e := listing[i];
    StaysUntilLost(files, others, i, e);
    assert listing[..i + 1] == listing[..i] + [e];
    assert Elems(listing[..i + 1]) == Elems(listing[..i]) + {e};
    assert e !in listing[..i];
    forall d | d in listing[..i] ensures d in files && d !in others(i).added {
      assert d in listing;
    }
  }

  lemma TakenNext(files: map<Entry, string>, others: nat -> Change, listing: seq<Entry>, i: nat)
    requires i < |listing| && forall e :: e in listing ==> e in files
    ensures var had := Taken(listing[..i], others);
      var has := Taken(listing[..i + 1], others);
      && has == had + (if listing[i] in Lost(others, i + 1) then [] else [listing[i]])
      && (listing[i] in Lost(others, i + 1) || files[listing[i]] == "" ==> PathsOf(files, has) == PathsOf(files, had))
      && (listing[i] !in Lost(others, i + 1) && files[listing[i]] != "" ==>
            PathsOf(files, has) == PathsOf(files, had) + [files[listing[i]]])
  {
    assert listing[..i + 1][..i] == listing[..i];
    var had, e := Taken(listing[..i], others), listing[i];
    assert had + [] == had && (had + [e])[..|had|] == had;
  }

  lemma {:induction false} LostTells(others: nat -> Change, n: nat, e: Entry)
    ensures e in Lost(others, n) <==> exists m: nat :: m < n && e in others(m).removed
  {
    if n > 0 {
      LostTells(others, n - 1, e);
    }
  }

  /** A listed entry is taken exactly when nobody else unlinked it up to its turn. */
  lemma {:induction false} TakenTells(listing: seq<Entry>, others: nat -> Change, i: nat)
    requires Increasing(listing) && i < |listing|
    ensures listing[i] in Taken(listing, others) <==> forall m: nat :: m <= i ==> listing[i] !in others(m).removed
    decreases |listing|
  {
    var front, last := listing[..|listing| - 1], listing[|listing| - 1];
    if i == |front| {
      LostTells(others, |listing|, last);
      assert last !in front;
    } else {
      TakenTells(front, others, i);
      assert front[i] == listing[i] != last;
    }
  }

  /** What is handed out are the contents of the markers that are not blank, in the order of the listing. */
  lemma {:induction false} PathsTell(files: map<Entry, string>, front: seq<Entry>, e: Entry, back: seq<Entry>)
    requires forall d :: d in front || d == e || d in back ==> d in files
    ensures PathsOf(files, []) == []
    ensures PathsOf(files, front + [e] + back) ==
      PathsOf(files, front) + (if files[e] == "" then [] else [files[e]]) + PathsOf(files, back)
  {
    var all := front + [e] + back;
    if back == [] {
      assert all == front + [e] && all[..|front|] == front;
    } else {
      var less := back[..|back| - 1];
      assert forall d :: d in less ==> d in back;
      PathsTell(files, front, e, less);
      assert all[..|all| - 1] == front + [e] + less;
      assert back[|back| - 1] in back;
    }
  }

  /** Without a competitor everything listed is taken. */
  lemma {:induction false} UncontendedTakesAll(listing: seq<Entry>, others: nat -> Change)
    requires forall i :: others(i).removed == {}
    ensures Taken(listing, others) == listing
  {
    if listing != [] {
      UncontendedTakesAll(listing[..|listing| - 1], others);
      NothingLost(others, |listing|);
    }
  }

  lemma {:induction false} NothingLost(others: nat -> Change, n: nat)
    requires forall i :: others(i).removed == {}
    ensures Lost(others, n) == {}
  {
    if n > 0 {
      NothingLost(others, n - 1);
    }
  }

  /** What an uncontended claim would hand out. */
  function Queue(files: map<Entry, string>): seq<string> {
    PathsOf(files, SortedEntries(files.Keys))
  }

  ghost predicate Increasing(listing: seq<Entry>) {
    forall i, j :: 0 <= i < j < |listing| ==> listing[i] < listing[j]
  }

  /** Dropping the greatest entry of an increasing listing. */
  lemma DropGreatest(listing: seq<Entry>)
    requires Increasing(listing) && listing != []
    ensures var front, last := listing[..|listing| - 1], listing[|listing| - 1];
      && Increasing(front) && last in Elems(listing) && Elems(front) == Elems(listing) - {last}
      && forall e :: e in Elems(listing) ==> e <= last
  {
    var front, last := listing[..|listing| - 1], listing[|listing| - 1];
    assert listing == front + [last];
    assert last !in front;
    assert Elems(listing) == Elems(front) + {last};
  }

  lemma EmptyListing(listing: seq<Entry>)
    ensures listing == [] <==> Elems(listing) == {}
  {
    if listing != [] {
      assert listing[0] in Elems(listing);
    }
  }

  /** A set has one increasing listing. */
  lemma {:induction false} SortedOnce(a: seq<Entry>, b: seq<Entry>)
    requires Increasing(a) && Increasing(b) && Elems(a) == Elems(b)
    ensures a == b
    decreases |a|
  {
    hide Increasing, Elems;
    EmptyListing(a);
    EmptyListing(b);
    if a != [] {
      DropGreatest(a);
      DropGreatest(b);
      SortedOnce(a[..|a| - 1], b[..|b| - 1]);
      assert a == a[..|a| - 1] + [a[|a| - 1]] && b == b[..|b| - 1] + [b[|b| - 1]];
    }
  }

  lemma {:induction false} PathsAgree(files: map<Entry, string>, more: map<Entry, string>, listing: seq<Entry>)
    requires forall e :: e in listing ==> e in files && e in more && more[e] == files[e]
    ensures PathsOf(files, listing) == PathsOf(more, listing)
  {
    if listing != [] {
      PathsAgree(files, more, listing[..|listing| - 1]);
      assert listing[|listing| - 1] in listing;
    }
  }

  lemma AppendGreatest(listing: seq<Entry>, e: Entry)
    requires Increasing(listing) && forall d :: d in Elems(listing) ==> d < e
    ensures Increasing(listing + [e]) && Elems(listing + [e]) == Elems(listing) + {e}
  {
    assert forall i :: 0 <= i < |listing| ==> listing[i] in Elems(listing);
  }

  lemma SortedTells(keys: set<Entry>)
    ensures Increasing(SortedEntries(keys)) && Elems(SortedEntries(keys)) == keys
  {
    hide SortedEntries;
  }

  lemma NewestListed(keys: set<Entry>, entry: Entry)
    requires forall e :: e in keys ==> e < entry
    ensures SortedEntries(keys + {entry}) == SortedEntries(keys) + [entry]
  {
    hide SortedEntries, Increasing, Elems;
    SortedTells(keys);
    SortedTells(keys + {entry});
    AppendGreatest(SortedEntries(keys), entry);
    SortedOnce(SortedEntries(keys + {entry}), SortedEntries(keys) + [entry]);
  }

  /** First in, first out: a packet queued under the newest name comes after everything already queued. */
  lemma NewestIsLast(files: map<Entry, string>, entry: Entry, attemptDir: string)
    requires attemptDir != "" && forall e :: e in files ==> e < entry
    ensures Queue(files[entry := attemptDir]) == Queue(files) + [attemptDir]
  {
    var more := files[entry := attemptDir];
    var listing := SortedEntries(files.Keys);
    assert more.Keys == files.Keys + {entry};
    NewestListed(files.Keys, entry);
    PathsAgree(files, more, listing);
    hide SortedEntries, PathsOf;
    PathsSnoc(more, listing, entry);
  }

  lemma PathsSnoc(files: map<Entry, string>, listing: seq<Entry>, entry: Entry)
    requires forall e :: e in listing + [entry] ==> e in files
    ensures forall e :: e in listing ==> e in files
    ensures entry in files && files[entry] != "" ==>
      PathsOf(files, listing + [entry]) == PathsOf(files, listing) + [files[entry]]
  {
    assert forall e :: e in listing ==> e in listing + [entry];
    assert entry in listing + [entry];
    assert (listing + [entry])[..|listing|] == listing;
  }

  /** The inbox directory: marker name to the attempt directory written in it. */
  class Inbox {
    var files: map<Entry, string>

    constructor ()
      ensures files == map[]
    {
      files := map[];
    }

    /** _enqueue_attempt: the caller holds the lock and the name is new. */
    method Enqueue(entry: Entry, attemptDir: string)
      requires entry !in files
      modifies this
      ensures files == old(files)[entry := attemptDir]
      ensures attemptDir != "" && (forall e :: e in old(files) ==> e < entry) ==>
        Queue(files) == old(Queue(files)) + [attemptDir]
    {
      if attemptDir != "" && forall e :: e in files ==> e < entry {
        NewestIsLast(files, entry, attemptDir);
      }
      files := files[entry := attemptDir];
    }

    /** _claim_ready_set among competitors: of what the listing showed, exactly the entries that nobody else unlinked
        first, oldest first; what the others did to the directory stands, and nothing listed remains. */
    method ClaimReadySet(others: nat -> Change) returns (claimed: seq<string>)
      requires FreshNames(files, others)
      modifies this
      ensures var listing := SortedEntries(old(files).Keys);
        && claimed == PathsOf(old(files), Taken(listing, others))
        && files == Tried(old(files), others, listing, |listing|)
      ensures forall e :: e in old(files) ==> e !in files
      ensures (forall i :: others(i).removed == {}) ==> claimed == old(Queue(files))
    {
      hide PathsOf, Taken, Tried, FreshNames;
      var entries := SortedEntries(files.Keys);
      claimed := [];
      ghost var before := files;
      ClaimStarts(before, others, entries);
      for i := 0 to |entries|
        invariant files == Tried(before, others, entries, i)
        invariant claimed == PathsOf(before, Taken(entries[..i], others))
      {
        TryNext(before, others, entries, i);
        TakenNext(before, others, entries, i);
        files := files - others(i).removed + others(i).added;
        var entry := entries[i];
        if entry in files {
          var text := files[entry];
          files := files - {entry};
          if text != "" {
            claimed := claimed + [text];
          }
        } else {
          assert files - {entry} == files;
        }
      }
      assert entries[..|entries|] == entries;
      NothingListedStays(before, others, entries);
      if forall i :: others(i).removed == {} {
        UncontendedTakesAll(entries, others);
      }
    }
  }

  lemma NothingListedStays(files: map<Entry, string>, others: nat -> Change, listing: seq<Entry>)
    ensures forall e :: e in listing ==> e !in Tried(files, others, listing, |listing|)
  {
    assert listing[..|listing|] == listing;
  }

  lemma ClaimStarts(files: map<Entry, string>, others: nat -> Change, listing: seq<Entry>)
    ensures Tried(files, others, listing, 0) == files
    ensures PathsOf(files, Taken(listing[..0], others)) == []
  {
    assert listing[..0] == [] && Elems([]) == {};
    assert files - {} == files;
  }

  // ---------------------------------------------------------------- the directory and the machine

  /** The markers of the directory are the machine's inbox. */
  ghost predicate Shows(files: map<Entry, string>, s: State) {
    files.Keys == s.inbox
  }

  /** Queueing a marker is the machine's step. */
  lemma EnqueueRefines(s: State, files: map<Entry, string>, entry: Entry, attemptDir: string)
    requires AtMostOnce(s) && Shows(files, s) && Enabled(s, Enqueue(entry))
    ensures entry !in files && Shows(files[entry := attemptDir], Apply(s, Enqueue(entry)))
  {
  }

  /** A run of the machine around one claim of `p`: before each of its unlinks the others change the inbox and
      leave `p` alone. */
  ghost predicate Interleaved(states: seq<State>, p: Pid, others: nat -> Change, n: nat) {
    && |states| == 2 * n + 1
    && forall i :: 0 <= i < n ==> Turn(states[2 * i], states[2 * i + 1], states[2 * i + 2], p, others(i))
  }

  ghost predicate Turn(s: State, t: State, u: State, p: Pid, change: Change) {
    && p in s.procs && p in t.procs && t.procs[p] == s.procs[p]
    && t.inbox == s.inbox - change.removed + change.added.Keys
    && Enabled(t, TakeOne(p)) && u == Apply(t, TakeOne(p))
  }

  lemma TurnTells(s: State, t: State, u: State, p: Pid, change: Change)
    requires Turn(s, t, u, p, change)
    ensures Taking(s.procs[p]) && s.procs[p].rest != [] && p in u.procs && Taking(u.procs[p])
    ensures var e := s.procs[p].rest[0];
      && u.inbox == s.inbox - change.removed + change.added.Keys - {e}
      && u.procs[p].rest == s.procs[p].rest[1..]
      && u.procs[p].batch == s.procs[p].batch + (if e in t.inbox then [e] else [])
  {
    assert s.procs[p].batch + [] == s.procs[p].batch;
  }

  /** The claim of the directory is the claim of the machine: whatever the others do between the unlinks, the batch
      of the process is the taken part of its listing, and the directory shows the inbox. */
  lemma {:induction false} ClaimRefines(states: seq<State>, p: Pid, others: nat -> Change, n: nat,
                                        files: map<Entry, string>, listing: seq<Entry>)
    requires Interleaved(states, p, others, n) && n <= |listing|
    requires FreshNames(files, others) && Shows(files, states[0]) && ListingOf(states[0].inbox, listing)
    requires p in states[0].procs && Taking(states[0].procs[p])
    requires states[0].procs[p].rest == listing && states[0].procs[p].batch == []
    ensures var t := states[2 * n];
      && Shows(Tried(files, others, listing, n), t)
      && p in t.procs && Taking(t.procs[p])
      && t.procs[p].rest == listing[n..] && t.procs[p].batch == Taken(listing[..n], others)
  {
    hide Taken, Tried, FreshNames, Turn, Lost;
    if n == 0 {
      ClaimStarts(files, others, listing);
      TakenNone(listing, others);
    } else {
      var front := states[..2 * n - 1];
      assert Interleaved(front, p, others, n - 1) by {
        assert forall i :: 0 <= i < 2 * n - 1 ==> front[i] == states[i];
      }
      ClaimRefines(front, p, others, n - 1, files, listing);
      var k := n - 1;
      assert Turn(states[2 * k], states[2 * k + 1], states[2 * k + 2], p, others(k));
      TurnTells(states[2 * k], states[2 * k + 1], states[2 * n], p, others(k));
      TryNext(files, others, listing, k);
      TakenNext(files, others, listing, k);
      var seen := Tried(files, others, listing, k) - others(k).removed + others(k).added;
      assert seen.Keys == states[2 * k].inbox - others(k).removed + others(k).added.Keys;
      assert states[2 * k + 1].inbox == seen.Keys by { TurnInbox(states, p, others, k); }
      assert listing[k..][0] == listing[k] && listing[k..][1..] == listing[n..];
    }
  }

  lemma TurnInbox(states: seq<State>, p: Pid, others: nat -> Change, k: nat)
    requires 2 * k + 2 < |states| && Turn(states[2 * k], states[2 * k + 1], states[2 * k + 2], p, others(k))
    ensures states[2 * k + 1].inbox == states[2 * k].inbox - others(k).removed + others(k).added.Keys
  {
  }

  lemma TakenNone(listing: seq<Entry>, others: nat -> Change)
    ensures Taken(listing[..0], others) == []
  {
    assert listing[..0] == [];
  }
}
