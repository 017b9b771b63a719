/** The GDAD node journal (scripts/gdad_run.py): an append-only log whose last line is the node's state.

    Timestamps, packet files and the gate token itself are not represented; issuing the gate and
    rewriting the status file are outcomes the request carries. */
module NodeJournal {
  import opened Wrappers
  import opened Text

  datatype Kind = Dispatch | Pause | Resume | Packet | Review | Verdict | Steer | Gate | Blocked | Decision

  datatype NodeState = Pending | Running | Paused | InReview | AwaitingDecision | Accepted | Rejected | Stuck

  datatype Reply =
    | ResumeRun(choice: string)
    | Redispatch(changes: string)
    | Next(workflow: Option<string>)

  datatype ReplyArg = NoReply | Malformed | Given(reply: Reply)

  /** One journal line. Empty strings stand for absent fields. */
  datatype Line = Line(kind: Kind, who: string, state: NodeState, runId: string, note: string,
                       artifacts: seq<string>, requestId: string, wid: string)

  /** The arguments of one call, with the outcomes of the two file operations that can fail. */
  datatype Request = Request(kind: Kind, note: string, artifacts: seq<string>, who: Option<string>,
                             requestId: string, wid: string, reply: ReplyArg, verdict: string,
                             gateToken: Option<string>, statusWritten: bool)

  datatype JournalError =
    | IllegalFrom(state: NodeState)
    | ReplyRequired
    | ReplyInvalid
    | WrongActor
    | VerdictRequired
    | DispatchIdsRequired
    | NoOpenRun
    | GateNotIssued
    | StatusNotWritten

  /** LEGAL: the states each kind may be journalled from. */
  function Legal(kind: Kind): set<NodeState> {
    match kind
    case Dispatch => {Pending, Stuck, Rejected}
    case Pause => {Running}
    case Resume => {Paused}
    case Packet => {Paused, InReview}
    case Review => {Running}
    case Verdict => {InReview}
    case Steer => {Running, Paused, InReview, AwaitingDecision}
    case Gate => {Accepted}
    case Blocked => {Pending, Running, Paused, InReview, AwaitingDecision}
    case Decision => {AwaitingDecision, Stuck}
  }

  /** WHO */
  function Actor(kind: Kind): string {
    match kind
    case Dispatch => "gdad-executor"
    case Pause => "pi-workflow"
    case Resume => "sab"
    case Packet => "pi-workflow"
    case Review => "gdad-executor"
    case Verdict => "claude-opus"
    case Steer => "sab"
    case Gate => "gdad-executor"
    case Blocked => "gdad-executor"
    case Decision => "fable"
  }

  function StateOf(lines: seq<Line>): NodeState {
    if lines == [] then Pending else lines[|lines| - 1].state
  }

  function CurrentRun(lines: seq<Line>): string {
    if lines == [] then "" else lines[|lines| - 1].runId
  }

  // ---------------------------------------------------------------- run ids

  function RunId(node: string, n: nat): string {
    node + "-" + Decimal(n)
  }

  /** The number of a run id of this node, 0 for anything else. */
  function RunNumber(node: string, runId: string): nat {
    var prefix := node + "-";
    if StartsWith(runId, prefix) && AllDigits(runId[|prefix|..]) then ParseNat(runId[|prefix|..]) else 0
  }

  function HighestRun(node: string, lines: seq<Line>): (n: nat) {
    if lines == [] then 0
    else
      var front := HighestRun(node, lines[..|lines| - 1]);
      var last := RunNumber(node, lines[|lines| - 1].runId);
      if last > front then last else front
  }

  lemma NumberOfRunId(node: string, n: nat)
    ensures RunNumber(node, RunId(node, n)) == n
  {
    var prefix := node + "-";
    assert RunId(node, n)[|prefix|..] == Decimal(n);
    ParseDecimal(n);
  }

  // ---------------------------------------------------------------- verdicts and dispatches

  /** The last line of that kind in that run, or -1. */
  function LastOf(lines: seq<Line>, kind: Kind, runId: string): (k: int)
    ensures -1 <= k < |lines|
    ensures k >= 0 ==> lines[k].kind == kind && lines[k].runId == runId
    ensures forall i :: k < i < |lines| ==> !(lines[i].kind == kind && lines[i].runId == runId)
  {
    if lines == [] then -1
    else
      var last := lines[|lines| - 1];
      if last.kind == kind && last.runId == runId then |lines| - 1
      else LastOf(lines[..|lines| - 1], kind, runId)
  }

  datatype Judgement = NoVerdict | Accept | Reject

  function JudgementOf(note: string): Judgement {
    if StartsWith(note, "accept") then Accept
    else if StartsWith(note, "reject") then Reject
    else NoVerdict
  }

  /** What the last verdict after the run's last review says. */
  function LatestVerdict(lines: seq<Line>, runId: string): Judgement {
    if runId == "" then NoVerdict
    else
      var review := LastOf(lines, Review, runId);
      var verdict := LastOf(lines, Verdict, runId);
      if review < 0 || verdict < review then NoVerdict else JudgementOf(lines[verdict].note)
  }

  function OpenDispatch(lines: seq<Line>, runId: string): Option<Line> {
    var k := LastOf(lines, Dispatch, runId);
    if k < 0 then Option.None else Some(lines[k])
  }

  // ---------------------------------------------------------------- one call

  function ValidReply(reply: Reply): bool {
    match reply
    case ResumeRun(choice) => choice != ""
    case Redispatch(changes) => changes != ""
    case Next(workflow) => workflow.None? || workflow.value != ""
  }

  function DecisionNote(reply: Reply): string {
    match reply
    case ResumeRun(choice) => "resume: " + choice
    case Redispatch(changes) => "redispatch: " + changes
    case Next(workflow) => "next: " + (if workflow.None? then "None" else workflow.value)
  }

  function DecisionState(reply: Reply, lines: seq<Line>): NodeState {
    match reply
    case ResumeRun(_) => Running
    case Redispatch(_) => Pending
    case Next(_) => if LatestVerdict(lines, CurrentRun(lines)) == Accept then Accepted else Rejected
  }

  /** Who, new state and note of the line, or why the call is refused. */
  datatype Heading = Heading(who: string, state: NodeState, note: string)

  function HeadingOf(lines: seq<Line>, req: Request): Result<Heading, JournalError> {
    var state := StateOf(lines);
    match req.kind
    case Decision =>
      if req.reply.NoReply? then Failure(ReplyRequired)
      else if req.reply.Malformed? || !ValidReply(req.reply.reply) then Failure(ReplyInvalid)
      else if req.who.Some? && req.who.value !in {"fable", "sab"} then Failure(WrongActor)
      else
        Success(Heading(if req.who.Some? then req.who.value else "fable",
                        DecisionState(req.reply.reply, lines),
                        if req.note != "" then req.note else DecisionNote(req.reply.reply)))
    case Verdict =>
      if req.verdict !in {"accept", "reject"} then Failure(VerdictRequired)
      else
        var note := if req.note == "" then req.verdict else req.verdict + ": " + req.note;
        Success(Heading(Actor(Verdict), InReview, note))
    case Steer => Success(Heading(Actor(Steer), state, req.note))
    case _ =>
      if req.who.Some? && req.who.value != Actor(req.kind) then Failure(WrongActor)
      else
        var newState := match req.kind
          case Dispatch => Running
          case Pause => Paused
          case Resume => Running
          case Packet => AwaitingDecision
          case Review => InReview
          case Gate => Accepted
          case _ => Stuck;
        Success(Heading(Actor(req.kind), newState, req.note))
  }

  predicate OpensRun(lines: seq<Line>, req: Request) {
    || (req.kind == Decision && req.reply.Given? && req.reply.reply.Redispatch?)
    || (req.kind == Dispatch && !(lines != [] && lines[|lines| - 1].kind == Decision && StateOf(lines) == Pending))
  }

  /** _journal_locked: the line the call appends, or why it refuses. */
  function NextLine(node: string, lines: seq<Line>, req: Request): Result<Line, JournalError> {
    if StateOf(lines) !in Legal(req.kind) then Failure(IllegalFrom(StateOf(lines)))
    else match HeadingOf(lines, req)
      case Failure(error) => Failure(error)
      case Success(heading) =>
        if req.kind == Dispatch && (req.requestId == "" || req.wid == "") then Failure(DispatchIdsRequired)
        else if !OpensRun(lines, req) && lines == [] then Failure(NoOpenRun)
        else if req.kind == Gate && req.gateToken.None? then Failure(GateNotIssued)
        else
          var runId := if OpensRun(lines, req) then RunId(node, HighestRun(node, lines) + 1) else CurrentRun(lines);
          Success(Line(req.kind, heading.who, heading.state, runId, heading.note,
                       if req.kind == Gate then [req.gateToken.value] else req.artifacts,
                       if req.kind == Dispatch then req.requestId else "",
                       if req.kind == Dispatch then req.wid else ""))
  }

  function Step(node: string, lines: seq<Line>, req: Request): seq<Line> {
    var next := NextLine(node, lines, req);
    if next.Success? && req.statusWritten then lines + [next.value] else lines
  }

  /** The journal after a sequence of calls. */
  function Journal(node: string, calls: seq<Request>): seq<Line> {
    if calls == [] then [] else Step(node, Journal(node, calls[..|calls| - 1]), calls[|calls| - 1])
  }

  // ---------------------------------------------------------------- what every reachable journal satisfies

  ghost predicate RunsAdvance(node: string, before: Line, line: Line) {
    var m, n := RunNumber(node, before.runId), RunNumber(node, line.runId);
    && (n == m || n == m + 1)
    && (n == m + 1 ==> line.kind == Dispatch || (line.kind == Decision && line.state == Pending))
  }

  /** Run ids are numbered from 1 and never skip. */
  ghost predicate RunsNumbered(node: string, lines: seq<Line>) {
    && (forall i :: 0 <= i < |lines| ==>
          lines[i].runId == RunId(node, RunNumber(node, lines[i].runId)) && RunNumber(node, lines[i].runId) >= 1)
    && (lines != [] ==> lines[0].kind == Dispatch && RunNumber(node, lines[0].runId) == 1)
    && forall i :: 0 < i < |lines| ==> RunsAdvance(node, lines[i - 1], lines[i])
  }

  ghost predicate RunsBounded(node: string, lines: seq<Line>) {
    forall i :: 0 <= i < |lines| ==> RunNumber(node, lines[i].runId) <= RunNumber(node, CurrentRun(lines))
  }

  /** No run is dispatched twice, and a run a decision just opened has not been dispatched. */
  ghost predicate DispatchedOnce(node: string, lines: seq<Line>) {
    && (forall i, j :: 0 <= i < j < |lines| && lines[i].kind == Dispatch && lines[j].kind == Dispatch ==>
          RunNumber(node, lines[i].runId) < RunNumber(node, lines[j].runId))
    && (StateOf(lines) == Pending ==> forall i :: 0 <= i < |lines| && lines[i].kind == Dispatch ==>
          RunNumber(node, lines[i].runId) < RunNumber(node, CurrentRun(lines)))
  }

  ghost predicate PendingIsDecided(lines: seq<Line>) {
    forall i :: 0 <= i < |lines| && lines[i].state == Pending ==> lines[i].kind == Decision
  }

  /** An accepted line is a gate line of the run accepted just before, or the decision that accepts it. */
  ghost predicate AcceptedBy(lines: seq<Line>, i: nat)
    requires i < |lines|
  {
    lines[i].state == Accepted ==>
      || (i > 0 && lines[i].kind == Gate && lines[i - 1].state == Accepted && lines[i].runId == lines[i - 1].runId)
      || (lines[i].kind == Decision && LatestVerdict(lines[..i], lines[i].runId) == Accept)
  }

  ghost predicate AfterAccepted(lines: seq<Line>, i: nat)
    requires 0 < i < |lines|
  {
    lines[i - 1].state == Accepted ==>
      lines[i].kind == Gate && lines[i].state == Accepted && lines[i].runId == lines[i - 1].runId
  }

  ghost predicate AcceptanceSound(lines: seq<Line>) {
    && (forall i :: 0 <= i < |lines| ==> AcceptedBy(lines, i))
    && forall i :: 0 < i < |lines| ==> AfterAccepted(lines, i)
  }

  ghost predicate Inv(node: string, lines: seq<Line>) {
    && RunsNumbered(node, lines) && RunsBounded(node, lines)
    && PendingIsDecided(lines) && DispatchedOnce(node, lines) && AcceptanceSound(lines)
  }

  lemma {:induction false} HighestIsMax(node: string, lines: seq<Line>)
    ensures forall i :: 0 <= i < |lines| ==> RunNumber(node, lines[i].runId) <= HighestRun(node, lines)
    ensures lines == [] ==> HighestRun(node, lines) == 0
    ensures lines != [] ==> exists i :: 0 <= i < |lines| && RunNumber(node, lines[i].runId) == HighestRun(node, lines)
  {
    hide RunNumber;
    if lines != [] {
      var front := lines[..|lines| - 1];
      HighestIsMax(node, front);
      var last := RunNumber(node, lines[|lines| - 1].runId);
      if last > HighestRun(node, front) || front == [] {
        assert RunNumber(node, lines[|lines| - 1].runId) == HighestRun(node, lines);
      } else {
        var i :| 0 <= i < |front| && RunNumber(node, front[i].runId) == HighestRun(node, front);
        assert lines[i] == front[i];
      }
    }
  }

  lemma HighestIsCurrent(node: string, lines: seq<Line>)
    requires RunsBounded(node, lines)
    ensures lines != [] ==> HighestRun(node, lines) == RunNumber(node, CurrentRun(lines))
    ensures lines == [] ==> HighestRun(node, lines) == 0
  {
    hide RunNumber;
    HighestIsMax(node, lines);
  }

  /** How the new line's run number relates to the journal's. */
  lemma NextNumber(node: string, lines: seq<Line>, req: Request)
    requires Inv(node, lines) && NextLine(node, lines, req).Success?
    ensures var line := NextLine(node, lines, req).value;
      && line.kind == req.kind
      && line.runId == RunId(node, RunNumber(node, line.runId))
      && (lines == [] ==> RunNumber(node, line.runId) == 1 && OpensRun(lines, req))
      && (lines != [] ==>
            RunNumber(node, line.runId) == RunNumber(node, CurrentRun(lines)) + (if OpensRun(lines, req) then 1 else 0))
      && (lines != [] && !OpensRun(lines, req) ==> line.runId == CurrentRun(lines))
  {
    hide RunNumber, RunId, LatestVerdict, AcceptanceSound, DispatchedOnce;
    HighestIsCurrent(node, lines);
    NumberOfRunId(node, HighestRun(node, lines) + 1);
  }

  lemma EmptyOpensWithDispatch(node: string, req: Request)
    requires NextLine(node, [], req).Success?
    ensures req.kind == Dispatch
  {
  }

  lemma NumberedStep(node: string, lines: seq<Line>, req: Request)
    requires Inv(node, lines) && NextLine(node, lines, req).Success?
    ensures RunsNumbered(node, lines + [NextLine(node, lines, req).value])
    ensures RunsBounded(node, lines + [NextLine(node, lines, req).value])
  {
    hide RunNumber, RunId, LatestVerdict, AcceptanceSound, DispatchedOnce, HighestRun;
    NextNumber(node, lines, req);
    if lines == [] {
      EmptyOpensWithDispatch(node, req);
    }
  }

  lemma PendingStep(node: string, lines: seq<Line>, req: Request)
    requires Inv(node, lines) && NextLine(node, lines, req).Success?
    ensures PendingIsDecided(lines + [NextLine(node, lines, req).value])
  {
    hide RunNumber, RunId, LatestVerdict, AcceptanceSound, DispatchedOnce, HighestRun, RunsNumbered, RunsBounded;
  }

  /** A new line in state pending is a redispatch, which opens a run. */
  lemma PendingOpens(node: string, lines: seq<Line>, req: Request)
    requires PendingIsDecided(lines) && NextLine(node, lines, req).Success?
    ensures NextLine(node, lines, req).value.state == Pending ==> OpensRun(lines, req) && req.kind == Decision
    ensures req.kind == Dispatch && !OpensRun(lines, req) ==> StateOf(lines) == Pending && lines != []
  {
    hide RunNumber, RunId, LatestVerdict, HighestRun;
  }

  lemma DispatchedStep(node: string, lines: seq<Line>, req: Request)
    requires Inv(node, lines) && NextLine(node, lines, req).Success?
    ensures DispatchedOnce(node, lines + [NextLine(node, lines, req).value])
  {
    NextNumber(node, lines, req);
    PendingOpens(node, lines, req);
    hide RunNumber, RunId, LatestVerdict, AcceptanceSound, HighestRun, RunsNumbered, NextLine, OpensRun;
  }

  lemma AcceptanceStep(node: string, lines: seq<Line>, req: Request)
    requires Inv(node, lines) && NextLine(node, lines, req).Success?
    ensures AcceptanceSound(lines + [NextLine(node, lines, req).value])
  {
    hide RunNumber, RunId, HighestRun, RunsNumbered, RunsBounded, DispatchedOnce, LatestVerdict;
    var line := NextLine(node, lines, req).value;
    var longer := lines + [line];
    forall i | 0 <= i < |longer| ensures AcceptedBy(longer, i) {
      if i < |lines| {
        assert AcceptedBy(lines, i);
        assert longer[..i] == lines[..i];
      } else {
        assert longer[..i] == lines;
      }
    }
    forall i | 0 < i < |longer| ensures AfterAccepted(longer, i) {
      if i < |lines| {
        assert AfterAccepted(lines, i);
      }
    }
  }

  lemma {:induction false} EveryJournal(node: string, calls: seq<Request>)
    ensures Inv(node, Journal(node, calls))
  {
    if calls != [] {
      hide Inv, NextLine;
      var lines := Journal(node, calls[..|calls| - 1]);
      var req := calls[|calls| - 1];
      EveryJournal(node, calls[..|calls| - 1]);
      if NextLine(node, lines, req).Success? {
        InvStep(node, lines, req);
      }
    } else {
      assert Journal(node, calls) == [];
    }
  }

  lemma InvStep(node: string, lines: seq<Line>, req: Request)
    requires Inv(node, lines) && NextLine(node, lines, req).Success?
    ensures Inv(node, lines + [NextLine(node, lines, req).value])
  {
    hide NextLine, RunsNumbered, RunsBounded, PendingIsDecided, DispatchedOnce, AcceptanceSound;
    NumberedStep(node, lines, req);
    PendingStep(node, lines, req);
    DispatchedStep(node, lines, req);
    AcceptanceStep(node, lines, req);
  }

  // ---------------------------------------------------------------- the transition table

  /** The rows of the table: in which state a kind of line may be written, and which states it may lead to. */
  ghost predicate Transition(before: NodeState, kind: Kind, after: NodeState) {
    match kind
    case Dispatch => before in {Pending, Stuck, Rejected} && after == Running
    case Pause => before == Running && after == Paused
    case Resume => before == Paused && after == Running
    case Packet => before in {Paused, InReview} && after == AwaitingDecision
    case Review => before == Running && after == InReview
    case Verdict => before == InReview && after == InReview
    case Steer => before in {Running, Paused, InReview, AwaitingDecision} && after == before
    case Gate => before == Accepted && after == Accepted
    case Blocked => before in {Pending, Running, Paused, InReview, AwaitingDecision} && after == Stuck
    case Decision => before in {AwaitingDecision, Stuck} && after in {Running, Pending, Accepted, Rejected}
  }

  lemma TransitionStep(node: string, lines: seq<Line>, req: Request)
    ensures NextLine(node, lines, req).Success? ==>
      var line := NextLine(node, lines, req).value;
      line.kind == req.kind && Transition(StateOf(lines), line.kind, line.state)
  {
    hide HighestRun, RunId, LatestVerdict;
  }

  /** Every line of a journal was appended by some call to the journal that precedes it. */
  lemma {:induction false} LineOrigin(node: string, calls: seq<Request>, i: nat) returns (k: nat)
    requires i < |Journal(node, calls)|
    ensures k < |calls| && Journal(node, calls)[..i] == Journal(node, calls[..k])
    ensures NextLine(node, Journal(node, calls[..k]), calls[k]) == Success(Journal(node, calls)[i])
  {
    hide NextLine;
    var front := calls[..|calls| - 1];
    var before := Journal(node, front);
    if i < |before| {
      k := LineOrigin(node, front, i);
      assert front[..k] == calls[..k];
      assert Journal(node, calls)[..i] == before[..i];
    } else {
      k := |front|;
      assert Journal(node, calls)[..i] == before;
    }
  }

  /** From its first line, every line of every journal follows the table; before the first line a node is pending. */
  lemma JournalFollowsTable(node: string, calls: seq<Request>, i: nat)
    requires i < |Journal(node, calls)|
    ensures var lines := Journal(node, calls); var before := if i == 0 then Pending else lines[i - 1].state;
      Transition(before, lines[i].kind, lines[i].state)
  {
    var k := LineOrigin(node, calls, i);
    TransitionStep(node, Journal(node, calls[..k]), calls[k]);
    hide NextLine, Journal, Transition;
  }

  /** A request is refused for its state exactly when the table has no row for that state and kind. */
  lemma IllegalIffNoRow(node: string, lines: seq<Line>, req: Request, state: NodeState)
    ensures NextLine(node, lines, req) == Failure(IllegalFrom(state)) <==>
      && state == (if lines == [] then Pending else lines[|lines| - 1].state)
      && forall after :: !Transition(state, req.kind, after)
  {
    hide HighestRun, RunId, LatestVerdict, DecisionNote, DecisionState, OpensRun;
    if StateOf(lines) in Legal(req.kind) {
      RowExists(StateOf(lines), req.kind);
    }
  }

  lemma RowExists(before: NodeState, kind: Kind)
    requires before in Legal(kind)
    ensures exists after :: Transition(before, kind, after)
  {
    match kind
    case Pause => assert Transition(before, kind, Paused);
    case Packet => assert Transition(before, kind, AwaitingDecision);
    case Review => assert Transition(before, kind, InReview);
    case Verdict => assert Transition(before, kind, InReview);
    case Steer => assert Transition(before, kind, before);
    case Gate => assert Transition(before, kind, Accepted);
    case Blocked => assert Transition(before, kind, Stuck);
    case _ => assert Transition(before, kind, Running);
  }

  /** What a decision leads to: resume goes on running, redispatch starts over, and next accepts exactly when the run's
      last verdict after its last review accepts, and rejects otherwise. */
  lemma DecisionTells(node: string, calls: seq<Request>, req: Request)
    requires req.kind == Decision && NextLine(node, Journal(node, calls), req).Success?
    ensures var lines := Journal(node, calls); var line := NextLine(node, lines, req).value;
      && req.reply.Given?
      && (req.reply.reply.ResumeRun? <==> line.state == Running)
      && (req.reply.reply.Redispatch? <==> line.state == Pending)
      && (req.reply.reply.Next? <==> line.state in {Accepted, Rejected})
      && (req.reply.reply.Next? ==>
            (line.state == Accepted <==> exists r, v :: Justifies(lines + [line], |lines|, r, v)))
  {
    EveryJournal(node, calls);
    var lines := Journal(node, calls);
    var line := NextLine(node, lines, req).value;
    RepliesTell(node, lines, req);
    assert (lines + [line])[..|lines|] == lines;
    LookupMeansJustified(lines + [line], |lines|);
    hide NextLine, LatestVerdict, Journal, Justifies, Inv;
  }

  lemma RepliesTell(node: string, lines: seq<Line>, req: Request)
    requires Inv(node, lines) && req.kind == Decision && NextLine(node, lines, req).Success?
    ensures var line := NextLine(node, lines, req).value;
      && line.runId != "" && req.reply.Given?
      && (req.reply.reply.ResumeRun? <==> line.state == Running)
      && (req.reply.reply.Redispatch? <==> line.state == Pending)
      && (req.reply.reply.Next? <==> line.state in {Accepted, Rejected})
      && (req.reply.reply.Next? ==> (line.state == Accepted <==> LatestVerdict(lines, line.runId) == Accept))
  {
    NextNumber(node, lines, req);
    assert NextLine(node, lines, req).value.runId != "" by {
      assert |NextLine(node, lines, req).value.runId| >= 1;
    }
    hide HighestRun, RunNumber, RunId, LatestVerdict, Inv;
  }

  /** What an appended line carries: the actor of its kind (who decided, for a decision), the note, the artifacts, and
      for a dispatch its two ids. */
  lemma LineTells(node: string, lines: seq<Line>, req: Request)
    requires NextLine(node, lines, req).Success?
    ensures var line := NextLine(node, lines, req).value;
      && line.who == (match req.kind
           case Dispatch => "gdad-executor"
           case Pause => "pi-workflow"
           case Resume => "sab"
           case Packet => "pi-workflow"
           case Review => "gdad-executor"
           case Verdict => "claude-opus"
           case Steer => "sab"
           case Gate => "gdad-executor"
           case Blocked => "gdad-executor"
           case Decision => if req.who == Some("sab") then "sab" else "fable")
      && (req.kind == Verdict ==>
            line.note == if req.note == "" then req.verdict else req.verdict + ": " + req.note)
      && (req.kind == Decision && req.note == "" ==>
            && req.reply.Given?
            && line.note == match req.reply.reply
                 case ResumeRun(choice) => "resume: " + choice
                 case Redispatch(changes) => "redispatch: " + changes
                 case Next(workflow) => if workflow.Some? then "next: " + workflow.value else "next: " + "None")
      && (req.kind != Verdict && !(req.kind == Decision && req.note == "") ==> line.note == req.note)
      && (req.kind == Gate ==> req.gateToken == Some(line.artifacts[0]) && |line.artifacts| == 1)
      && (req.kind != Gate ==> line.artifacts == req.artifacts)
      && (req.kind == Dispatch ==> line.requestId == req.requestId != "" && line.wid == req.wid != "")
      && (req.kind != Dispatch ==> line.requestId == line.wid == "")
  {
    hide HighestRun, RunId, LatestVerdict, DecisionState, OpensRun, Legal;
  }

  lemma AllowedOrIllegal(node: string, lines: seq<Line>, req: Request)
    ensures StateOf(lines) in Legal(req.kind) || NextLine(node, lines, req) == Failure(IllegalFrom(StateOf(lines)))
  {
  }

  /** The other refusals, each with its exact case among the requests the table allows. */
  lemma RefusalTells(node: string, lines: seq<Line>, req: Request)
    requires !(exists s :: NextLine(node, lines, req) == Failure(IllegalFrom(s)))
    ensures var next := NextLine(node, lines, req);
      var wellReplied := req.reply.Given? && req.reply.reply !in {ResumeRun(""), Redispatch(""), Next(Some(""))};
      var actor := match req.kind
        case Pause => "pi-workflow"
        case Packet => "pi-workflow"
        case Resume => "sab"
        case _ => "gdad-executor";
      var known := req.kind in {Verdict, Steer} || req.who == None
                   || (if req.kind == Decision then req.who.value in {"fable", "sab"} else req.who.value == actor);
      && (next == Failure(ReplyRequired) <==> req.kind == Decision && req.reply == NoReply)
      && (next == Failure(ReplyInvalid) <==> req.kind == Decision && req.reply != NoReply && !wellReplied)
      && (next == Failure(WrongActor) <==> (req.kind == Decision ==> wellReplied) && !known)
      && (next == Failure(VerdictRequired) <==> req.kind == Verdict && req.verdict !in {"accept", "reject"})
      && (next == Failure(DispatchIdsRequired) <==>
            req.kind == Dispatch && known && (req.requestId == "" || req.wid == ""))
      && (next == Failure(NoOpenRun) <==> req.kind == Blocked && known && lines == [])
      && (next == Failure(GateNotIssued) <==> req.kind == Gate && known && req.gateToken == None)
  {
    hide HighestRun, RunId, LatestVerdict, DecisionState, DecisionNote;
    AllowedOrIllegal(node, lines, req);
  }

  /** Run ids are the node's name and a number. It stays from line to line, except that a redispatch starts the next
      run, and so does a dispatch unless a redispatch has just started one. */
  lemma RunIdsTell(node: string, calls: seq<Request>, i: nat)
    requires i < |Journal(node, calls)|
    ensures var lines := Journal(node, calls); var n := RunNumber(node, lines[i].runId);
      && n >= 1 && lines[i].runId == node + "-" + Decimal(n)
      && (i == 0 ==> n == 1)
      && (i > 0 ==>
            var opens := (lines[i].kind == Decision && lines[i].state == Pending)
                         || (lines[i].kind == Dispatch && lines[i - 1].state != Pending);
            lines[i - 1].runId == node + "-" + Decimal(if opens then n - 1 else n))
  {
    var k := LineOrigin(node, calls, i);
    EveryJournal(node, calls[..k]);
    RunStepTells(node, Journal(node, calls[..k]), calls[k]);
    hide NextLine, Journal, RunNumber, Inv;
  }

  lemma RunStepTells(node: string, lines: seq<Line>, req: Request)
    requires Inv(node, lines) && NextLine(node, lines, req).Success?
    ensures var line := NextLine(node, lines, req).value; var n := RunNumber(node, line.runId);
      && n >= 1 && line.runId == node + "-" + Decimal(n)
      && (lines == [] ==> n == 1)
      && (lines != [] ==>
            var opens := (line.kind == Decision && line.state == Pending)
                         || (line.kind == Dispatch && StateOf(lines) != Pending);
            CurrentRun(lines) == node + "-" + Decimal(if opens then n - 1 else n))
  {
    NextNumber(node, lines, req);
    OpensTells(lines, req);
    if req.kind == Decision {
      RedispatchIsPending(node, lines, req);
    }
    if lines != [] {
      assert CurrentRun(lines) == RunId(node, RunNumber(node, CurrentRun(lines)));
    }
    hide NextLine, RunNumber, DispatchedOnce, AcceptanceSound, OpensRun;
  }

  lemma OpensTells(lines: seq<Line>, req: Request)
    requires PendingIsDecided(lines)
    ensures req.kind == Dispatch ==> (OpensRun(lines, req) <==> lines == [] || StateOf(lines) != Pending)
    ensures req.kind != Dispatch ==>
      (OpensRun(lines, req) <==> req.kind == Decision && req.reply.Given? && req.reply.reply.Redispatch?)
  {
  }

  lemma RedispatchIsPending(node: string, lines: seq<Line>, req: Request)
    requires req.kind == Decision && NextLine(node, lines, req).Success?
    ensures req.reply.Given?
    ensures NextLine(node, lines, req).value.state == Pending <==> req.reply.reply.Redispatch?
  {
    hide HighestRun, RunId, LatestVerdict;
  }

  // ---------------------------------------------------------------- the main results

  /** Run numbers start at 1 with a dispatch, never decrease, and rise by at most one per line, only at a
      dispatch or at a redispatch decision. */
  lemma {:induction false} RunNumbersAdvance(node: string, calls: seq<Request>, i: nat, j: nat)
    requires i <= j < |Journal(node, calls)|
    ensures var lines := Journal(node, calls);
      && lines[0].kind == Dispatch && lines[0].runId == RunId(node, 1)
      && RunNumber(node, lines[i].runId) <= RunNumber(node, lines[j].runId) <= RunNumber(node, lines[i].runId) + (j - i)
      && (j == i + 1 ==> RunsAdvance(node, lines[i], lines[j]))
    decreases j - i
  {
    EveryJournal(node, calls);
    hide RunNumber, RunId, Journal, RunsBounded, DispatchedOnce, AcceptanceSound;
    if i < j {
      RunNumbersAdvance(node, calls, i, j - 1);
    }
  }

  /** A run id is dispatched at most once, so the search for its dispatch finds the only one. */
  lemma OneDispatchPerRun(node: string, calls: seq<Request>, i: nat)
    requires i < |Journal(node, calls)| && Journal(node, calls)[i].kind == Dispatch
    ensures var lines := Journal(node, calls);
      && OpenDispatch(lines, lines[i].runId) == Some(lines[i])
      && forall j :: 0 <= j < |lines| && lines[j].kind == Dispatch && lines[j].runId == lines[i].runId ==> j == i
  {
    EveryJournal(node, calls);
    hide RunNumber, RunId, Journal, RunsBounded, RunsNumbered, AcceptanceSound;
    var lines := Journal(node, calls);
    var k := LastOf(lines, Dispatch, lines[i].runId);
    assert k >= i;
  }

  /** The verdict at `v` accepts the run of line `k`: it follows the run's last review at `r`, and is the
      last verdict after it. */
  ghost predicate Justifies(lines: seq<Line>, k: nat, r: nat, v: nat)
    requires k < |lines|
  {
    && r < v < k
    && lines[r].kind == Review && lines[r].runId == lines[k].runId
    && lines[v].kind == Verdict && lines[v].runId == lines[k].runId
    && StartsWith(lines[v].note, "accept")
    && (forall i :: r < i < k ==> !(lines[i].kind == Review && lines[i].runId == lines[k].runId))
    && (forall i :: v < i < k ==> !(lines[i].kind == Verdict && lines[i].runId == lines[k].runId))
  }

  /** The verdict lookup finds "accept" exactly when such a review and verdict exist. */
  lemma LookupMeansJustified(lines: seq<Line>, k: nat)
    requires k < |lines| && lines[k].runId != ""
    ensures LatestVerdict(lines[..k], lines[k].runId) == Accept <==> exists r, v :: Justifies(lines, k, r, v)
  {
    var before, run := lines[..k], lines[k].runId;
    var review, verdict := LastOf(before, Review, run), LastOf(before, Verdict, run);
    if LatestVerdict(before, run) == Accept {
      assert before[review].kind == Review && before[verdict].kind == Verdict;
      assert Justifies(lines, k, review, verdict);
    }
    if exists r: nat, v: nat :: Justifies(lines, k, r, v) {
      var r: nat, v: nat :| Justifies(lines, k, r, v);
      assert before[r] == lines[r] && before[v] == lines[v];
      assert lines[review] == before[review] && lines[verdict] == before[verdict];
      assert review == r && verdict == v;
    }
  }

  /** The first accepted line is a decision, and its run was reviewed and then accepted. */
  lemma FirstAcceptedIsJustified(node: string, calls: seq<Request>, k: nat)
    requires k < |Journal(node, calls)| && Journal(node, calls)[k].state == Accepted
    requires forall i :: 0 <= i < k ==> Journal(node, calls)[i].state != Accepted
    ensures Journal(node, calls)[k].kind == Decision
    ensures exists r, v :: Justifies(Journal(node, calls), k, r, v)
  {
    EveryJournal(node, calls);
    hide RunNumber, Journal, RunsBounded, DispatchedOnce, LatestVerdict, Justifies;
    var lines := Journal(node, calls);
    assert AcceptedBy(lines, k);
    assert lines[k].runId != "" by { assert |lines[k].runId| >= 1; }
    LookupMeansJustified(lines, k);
  }

  /** Accepted is absorbing: after an accepted line come only gate lines of the same run. */
  lemma {:induction false} AcceptedIsFinal(node: string, calls: seq<Request>, i: nat, j: nat)
    requires i < j < |Journal(node, calls)| && Journal(node, calls)[i].state == Accepted
    ensures var lines := Journal(node, calls);
      lines[j].kind == Gate && lines[j].state == Accepted && lines[j].runId == lines[i].runId
    decreases j
  {
    EveryJournal(node, calls);
    hide RunNumber, Journal, RunsBounded, RunsNumbered, DispatchedOnce, AcceptedBy;
    var lines := Journal(node, calls);
    if i < j - 1 {
      AcceptedIsFinal(node, calls, i, j - 1);
    }
    assert AfterAccepted(lines, j);
  }

  /** A verdict line's note starts with the verdict it was given, whatever note came along. */
  lemma VerdictNoteTells(node: string, lines: seq<Line>, req: Request)
    requires req.kind == Verdict && NextLine(node, lines, req).Success?
    ensures JudgementOf(NextLine(node, lines, req).value.note) == Accept <==> req.verdict == "accept"
    ensures JudgementOf(NextLine(node, lines, req).value.note) == Reject <==> req.verdict == "reject"
  {
    hide HighestRun, RunId, LatestVerdict;
    var note := NextLine(node, lines, req).value.note;
    assert note[..6] == req.verdict;
    assert "accept"[0] != "reject"[0];
  }

  // ---------------------------------------------------------------- the journal on disk

  datatype Status = Status(state: NodeState, who: string, runId: string, requestId: string, wid: string)

  /** _render_status: the dispatch the line's run belongs to supplies request id and wid. */
  function Render(lines: seq<Line>): Status
    requires lines != []
  {
    var line := lines[|lines| - 1];
    var dispatch := OpenDispatch(lines, line.runId);
    var source := if line.kind == Dispatch then Some(line) else dispatch;
    Status(line.state, line.who, line.runId,
           if source.Some? then source.value.requestId else "",
           if source.Some? then source.value.wid else "")
  }

  /** The status names the last line's state, actor and run, and the ids under which that run was dispatched, if it
      was. */
  lemma StatusTells(node: string, calls: seq<Request>)
    requires Journal(node, calls) != []
    ensures var lines := Journal(node, calls); var last, status := lines[|lines| - 1], Render(lines);
      && status.state == last.state && status.who == last.who && status.runId == last.runId
      && (forall i :: 0 <= i < |lines| && lines[i].kind == Dispatch && lines[i].runId == last.runId ==>
            status.requestId == lines[i].requestId && status.wid == lines[i].wid)
      && ((forall i :: 0 <= i < |lines| && lines[i].kind == Dispatch ==> lines[i].runId != last.runId) ==>
            status.requestId == status.wid == "")
  {
    var lines := Journal(node, calls);
    forall i | 0 <= i < |lines| && lines[i].kind == Dispatch
      ensures OpenDispatch(lines, lines[i].runId) == Some(lines[i])
    {
      OneDispatchPerRun(node, calls, i);
    }
    hide Journal;
  }

  class JournalFile {
    const node: string
    var lines: seq<Line>
    var status: Option<Status>

    /** The status file says what the last journal line says. */
    ghost predicate StatusIsLastLine()
      reads this
    {
      status == if lines == [] then Option.None else Some(Render(lines))
    }

    constructor (node: string)
      ensures this.node == node && lines == [] && StatusIsLastLine()
    {
      this.node := node;
      lines, status := [], Option.None;
    }

    /** _alloc_run_id */
    method AllocRunId() returns (runId: string)
      ensures runId == RunId(node, HighestRun(node, lines) + 1)
      ensures runId == node + "-" + Decimal(HighestRun(node, lines) + 1)
      ensures forall i, n: nat :: 0 <= i < |lines| && lines[i].runId == node + "-" + Decimal(n) ==>
        n <= HighestRun(node, lines)
    {
      HighestIsMax(node, lines);
      forall i, n: nat | 0 <= i < |lines| && lines[i].runId == node + "-" + Decimal(n)
        ensures n <= HighestRun(node, lines)
      {
        NumberOfRunId(node, n);
      }
      hide RunNumber;
      var highest := 0;
      for i := 0 to |lines|
        invariant highest == HighestRun(node, lines[..i])
      {
        assert lines[..i + 1][..i] == lines[..i];
        var n := RunNumber(node, lines[i].runId);
        if n > highest {
          highest := n;
        }
      }
      assert lines[..|lines|] == lines;
      runId := RunId(node, highest + 1);
    }

    /** _open_dispatch */
    method FindDispatch(runId: string) returns (found: Option<Line>)
      ensures found == OpenDispatch(lines, runId)
    {
      found := Option.None;
      for i := 0 to |lines|
        invariant found == OpenDispatch(lines[..i], runId)
      {
        assert lines[..i + 1][..i] == lines[..i];
        if lines[i].kind == Dispatch && lines[i].runId == runId {
          found := Some(lines[i]);
        }
      }
      assert lines[..|lines|] == lines;
    }

    /** _latest_verdict: the last review of the run, then the last verdict after it. */
    method FindVerdict(runId: string) returns (judgement: Judgement)
      ensures judgement == LatestVerdict(lines, runId)
    {
      if runId == "" {
        return NoVerdict;
      }
      var review := -1;
      for i := 0 to |lines|
        invariant review == LastOf(lines[..i], Review, runId)
      {
        assert lines[..i + 1][..i] == lines[..i];
        if lines[i].kind == Review && lines[i].runId == runId {
          review := i;
        }
      }
      assert lines[..|lines|] == lines;
      if review < 0 {
        return NoVerdict;
      }
      var found := -1;
      for i := review + 1 to |lines|
        invariant -1 <= found < i
          && (found >= 0 ==> found > review && lines[found].kind == Verdict && lines[found].runId == runId)
        invariant forall k :: review < k < i && k > found ==> !(lines[k].kind == Verdict && lines[k].runId == runId)
      {
        if lines[i].kind == Verdict && lines[i].runId == runId {
          found := i;
        }
      }
      var verdict := LastOf(lines, Verdict, runId);
      if found < 0 {
        assert verdict < review by { assert verdict != review; }
        return NoVerdict;
      }
      assert found == verdict;
      return JudgementOf(lines[found].note);
    }

    /** journal(): one locked append. Either the line and its status are both on disk, or neither. */
    method Append(req: Request) returns (r: Result<Line, JournalError>)
      requires StatusIsLastLine()
      modifies this
      ensures lines == Step(node, old(lines), req)
      ensures StatusIsLastLine()
      ensures r == if NextLine(node, old(lines), req).Success? && !req.statusWritten
                   then Failure(StatusNotWritten) else NextLine(node, old(lines), req)
      ensures r.Failure? ==> lines == old(lines) && status == old(status)
      ensures r.Success? ==> lines == old(lines) + [r.value]
      ensures r.Success? ==> Transition(StateOf(old(lines)), req.kind, r.value.state)
    {
      TransitionStep(node, lines, req);
      var next := NextLine(node, lines, req);
      if next.Failure? {
        return next;
      }
      var previous := lines;
      lines := lines + [next.value];
      if !req.statusWritten {
        lines := previous;
        return Failure(StatusNotWritten);
      }
      status := Some(Render(lines));
      return next;
    }
  }
}
