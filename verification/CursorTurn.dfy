/** One cursor turn from its stream to its durable record: the stream translator
    (scripts/adapters/events_cursor_cli.py), the turn that holds back its boundary events
    (scripts/adapters/cursor_cli_adapter.py) and the attempt supervisor (scripts/runtime/local_attempt.py).

    A line of the stream is given decoded. The child process is represented by the lines it wrote, its return
    code and whether the watchdog fired; the event envelope (session, turn, sequence number, time) and the
    verbatim copy of the stream are not part of this model. */
module CursorTurn {
  import opened Wrappers
  import opened Text

  // ---------------------------------------------------------------- vocabulary

  datatype Args = NoArgs | Args(path: string, command: string)

  datatype ToolResult = Succeeded | Errored(message: string)

  datatype Usage = Usage(input: Option<int>, output: Option<int>, cachedInput: Option<int>, cacheWrite: Option<int>)

  /** The `result` field of a terminal event: any JSON value, shown as str() shows it. */
  datatype ResultValue = ResultValue(shown: string, isString: bool)

  datatype Line =
    | Blank
    | NotJson
    | Ignored
    | Init(sessionId: Option<string>, model: Option<string>)
    | Assistant(text: string)
    | ToolCall(callId: string, key: string, subtype: string, args: Args, outcome: ToolResult, duration: Option<int>)
    | ResultLine(subtype: string, isError: bool, result: Option<ResultValue>, usage: Option<Usage>,
                 duration: Option<int>)

  datatype Status = Completed | Failed | Cancelled

  datatype Event =
    | TurnStarted
    | SessionStarted(model: Option<string>, resumeToken: Option<string>)
    | AssistantMessage(text: string)
    | ToolStarted(callId: string, tool: string, paths: seq<string>, command: Option<string>)
    | ToolCompleted(callId: string, tool: string, paths: seq<string>, command: Option<string>,
                    ok: bool, error: Option<string>, duration: Option<int>)
    | UsageReported(usage: Usage)
    | TurnEnded(status: Status, error: Option<string>, warning: Option<string>, stopReason: Option<string>,
                duration: Option<int>)

  datatype Call = Call(tool: string, paths: seq<string>, command: Option<string>)

  /** Python's `first or second` on an optional string. */
  function Or(first: Option<string>, second: string): string {
    if first.Some? && first.value != "" then first.value else second
  }

  function NonEmpty(text: string): Option<string> {
    if text == "" then None else Some(text)
  }

  /** str() of a return code. */
  function Code(returncode: int): string {
    if returncode < 0 then "-" + Decimal(-returncode) else Decimal(returncode)
  }

  function CanonicalTool(key: string, callId: string): string {
    var stem := if |key| >= 8 && key[|key| - 8..] == "ToolCall" then key[..|key| - 8] else key;
    var lowered := Lower(stem);
    if lowered == "edit" then
      if StartsWith(Lower(callId), "write_") then "write" else "edit"
    else if lowered == "shell" then "bash"
    else lowered
  }

  function PathsOf(args: Args): seq<string> {
    if args.Args? && args.path != "" then [args.path] else []
  }

  function CommandOf(args: Args): Option<string> {
    if args.Args? then NonEmpty(args.command) else None
  }

  // ---------------------------------------------------------------- translator state

  datatype Translator = Translator(calls: map<string, Call>, text: string, sawTurnEnd: bool, completedWork: bool)

  const FRESH := Translator(map[], "", false, false)

  /** _absorb_text: an event equal to the buffer is taken for the final re-emission. */
  function Absorb(buffer: string, text: string): string {
    if text == "" || text == buffer then buffer else buffer + text
  }

  function Message(text: string): seq<Event> {
    if text == "" then [] else [AssistantMessage(text)]
  }

  function TranslateCall(t: Translator, line: Line): (Translator, seq<Event>)
    requires line.ToolCall?
  {
    var tool := CanonicalTool(line.key, line.callId);
    var paths, command := PathsOf(line.args), CommandOf(line.args);
    if line.key == "" then (t, [])
    else if line.subtype == "started" then
      (t.(calls := t.calls[line.callId := Call(tool, paths, command)], text := ""),
       Message(t.text) + [ToolStarted(line.callId, tool, paths, command)])
    else if line.subtype == "completed" then
      var ok := line.outcome.Succeeded?;
      var error := if ok then None else Some(Or(Some(line.outcome.message), "tool call failed"));
      if line.callId in t.calls then
        var was := t.calls[line.callId];
        (t.(calls := t.calls - {line.callId}),
         [ToolCompleted(line.callId, if line.args.NoArgs? then was.tool else tool,
                        if paths == [] then was.paths else paths,
                        if command.None? then was.command else command, ok, error, line.duration)])
      else (t, [ToolCompleted(line.callId, tool, paths, command, ok, error, line.duration)])
    else (t, [])
  }

  /** The boundary event of a `result` line. */
  function Boundary(line: Line, alreadyCompleted: bool): (e: Event)
    requires line.ResultLine?
    ensures e.TurnEnded?
  {
    var shown := if line.result.Some? then Some(line.result.value.shown) else None;
    var stop := NonEmpty(line.subtype);
    if alreadyCompleted then
      TurnEnded(Completed, None, Some(if shown.Some? then shown.value else "error after a completed result"), stop,
                line.duration)
    else if line.subtype == "success" then
      TurnEnded(Completed, None,
                if !line.isError then None
                else Some(if shown.Some? then shown.value else "result marked is_error after a completed result"),
                stop, line.duration)
    else TurnEnded(Failed, shown, None, stop, line.duration)
  }

  function TranslateResult(t: Translator, line: Line): (Translator, seq<Event>)
    requires line.ResultLine?
  {
    var text :=
      if t.text == "" && line.result.Some? && line.result.value.isString then line.result.value.shown else t.text;
    (t.(text := "", sawTurnEnd := true, completedWork := t.completedWork || line.subtype == "success"),
     Message(text) + (if line.usage.Some? then [UsageReported(line.usage.value)] else [])
     + [Boundary(line, t.completedWork)])
  }

  function Translate(t: Translator, line: Line): (Translator, seq<Event>) {
    match line
    case Init(sessionId, model) => (t, [SessionStarted(model, sessionId)])
    case Assistant(text) => (t.(text := Absorb(t.text, text)), [])
    case ToolCall(_, _, _, _, _, _) => TranslateCall(t, line)
    case ResultLine(_, _, _, _, _) => TranslateResult(t, line)
    case _ => (t, [])
  }

  /** CursorStreamTranslator */
  class CursorStreamTranslator {
    var calls: map<string, Call>
    var text: string
    var sawTurnEnd: bool
    var completedWork: bool

    ghost function State(): Translator
      reads this
    {
      Translator(calls, text, sawTurnEnd, completedWork)
    }

    constructor ()
      ensures State() == FRESH
    {
      calls, text, sawTurnEnd, completedWork := map[], "", false, false;
    }

    method FlushText() returns (events: seq<Event>)
      modifies this
      ensures State() == old(State()).(text := "") && events == Message(old(text))
    {
      var buffered := text;
      text := "";
      if buffered == "" {
        return [];
      }
      return [AssistantMessage(buffered)];
    }

    method AbsorbText(fragment: string)
      modifies this
      ensures State() == old(State()).(text := Absorb(old(text), fragment))
    {
      if fragment == "" || fragment == text {
        return;
      }
      text := text + fragment;
    }

    method HandleToolCall(line: Line) returns (events: seq<Event>)
      requires line.ToolCall?
      modifies this
      ensures (State(), events) == TranslateCall(old(State()), line)
    {
      if line.key == "" {
        return [];
      }
      var tool := CanonicalTool(line.key, line.callId);
      var paths, command := PathsOf(line.args), CommandOf(line.args);
      if line.subtype == "started" {
        calls := calls[line.callId := Call(tool, paths, command)];
        events := FlushText();
        events := events + [ToolStarted(line.callId, tool, paths, command)];
        return;
      }
      if line.subtype != "completed" {
        return [];
      }
      if line.callId in calls {
        var buffered := calls[line.callId];
        calls := calls - {line.callId};
        if paths == [] {
          paths := buffered.paths;
        }
        if command.None? {
          command := buffered.command;
        }
        if line.args.NoArgs? {
          tool := buffered.tool;
        }
      }
      var ok := line.outcome.Succeeded?;
      var error := if ok then None else Some(Or(Some(line.outcome.message), "tool call failed"));
      events := [ToolCompleted(line.callId, tool, paths, command, ok, error, line.duration)];
    }

    method HandleResult(line: Line) returns (events: seq<Event>)
      requires line.ResultLine?
      modifies this
      ensures (State(), events) == TranslateResult(old(State()), line)
    {
      var alreadyCompleted := completedWork;
      if line.subtype == "success" {
        completedWork := true;
      }
      sawTurnEnd := true;
      if text == "" && line.result.Some? && line.result.value.isString {
        text := line.result.value.shown;
      }
      events := FlushText();
      assert events + [] == events;
      if line.usage.Some? {
        events := events + [UsageReported(line.usage.value)];
      }
      events := events + [Boundary(line, alreadyCompleted)];
    }

    method Handle(line: Line) returns (events: seq<Event>)
      modifies this
      ensures (State(), events) == Translate(old(State()), line)
    {
      events := [];
      match line {
        case Init(sessionId, model) => events := [SessionStarted(model, sessionId)];
        case Assistant(fragment) => AbsorbText(fragment);
        case ToolCall(_, _, _, _, _, _) => events := HandleToolCall(line);
        case ResultLine(_, _, _, _, _) => events := HandleResult(line);
        case _ =>
      }
    }
  }

  // ---------------------------------------------------------------- what one line of the stream means

  /** Tools go by the lower-case stem of their key. A shell is bash, and an edit whose call id begins with "write_", in
      any case, is a write. */
  lemma ToolNameTells(stem: string, callId: string)
    ensures CanonicalTool(stem + "ToolCall", callId) ==
      if Lower(stem) == "shell" then "bash"
      else if Lower(stem) == "edit" && |callId| >= 6 && Lower(callId[..6]) == "write_" then "write"
      else Lower(stem)
  {
    var key := stem + "ToolCall";
    assert key[|key| - 8..] == "ToolCall" && key[..|key| - 8] == stem;
    if |callId| >= 6 {
      assert Lower(callId)[..6] == Lower(callId[..6]);
    }
    assert StartsWith(Lower(callId), "write_") <==> |callId| >= 6 && Lower(callId)[..6] == "write_";
    hide Lower;
  }

  /** The first event of a session names its model and the handle for resuming it. Text is buffered without an event,
      and lines that are not understood do nothing. */
  lemma QuietLinesTell(t: Translator, line: Line)
    ensures line.Init? ==> Translate(t, line) == (t, [SessionStarted(line.model, line.sessionId)])
    ensures line.Assistant? ==>
      Translate(t, line) ==
        (Translator(t.calls, if line.text in {"", t.text} then t.text else t.text + line.text, t.sawTurnEnd,
                    t.completedWork), [])
    ensures line in {Blank, NotJson, Ignored} ==> Translate(t, line) == (t, [])
    ensures line.ToolCall? && (line.key == "" || line.subtype !in {"started", "completed"}) ==>
      Translate(t, line) == (t, [])
  {
    hide CanonicalTool, PathsOf, CommandOf, Or;
  }

  /** A start emits what was said so far and then the call, with its path and command if it names any. */
  lemma StartTells(t: Translator, line: Line)
    requires line.ToolCall? && line.key != "" && line.subtype == "started"
    ensures var (after, events) := Translate(t, line);
      var tool := CanonicalTool(line.key, line.callId);
      var paths := if line.args == NoArgs || line.args.path == "" then [] else [line.args.path];
      var command := if line.args == NoArgs || line.args.command == "" then None else Some(line.args.command);
      && events == (if t.text == "" then [] else [AssistantMessage(t.text)])
                   + [ToolStarted(line.callId, tool, paths, command)]
      && after == Translator(t.calls[line.callId := Call(tool, paths, command)], "", t.sawTurnEnd, t.completedWork)
  {
    hide CanonicalTool;
  }

  /** A completion closes the call with its own path, command and tool, those of its start standing in for what it does
      not carry, and says whether the call went well. */
  lemma CompletionTells(t: Translator, line: Line)
    requires line.ToolCall? && line.key != "" && line.subtype == "completed"
    ensures var (after, events) := Translate(t, line);
      var known := line.callId in t.calls;
      && |events| == 1 && events[0].ToolCompleted? && events[0].callId == line.callId
      && events[0].tool == (if known && line.args == NoArgs then t.calls[line.callId].tool
                            else CanonicalTool(line.key, line.callId))
      && events[0].paths == (if line.args != NoArgs && line.args.path != "" then [line.args.path]
                             else if known then t.calls[line.callId].paths else [])
      && events[0].command == (if line.args != NoArgs && line.args.command != "" then Some(line.args.command)
                               else if known then t.calls[line.callId].command else None)
      && (events[0].ok <==> line.outcome == Succeeded) && events[0].duration == line.duration
      && events[0].error == (if line.outcome == Succeeded then None
                             else if line.outcome == Errored("") then Some("tool call failed")
                             else Some(line.outcome.message))
      && after == Translator(t.calls - {line.callId}, t.text, t.sawTurnEnd, t.completedWork)
  {
    hide CanonicalTool;
    assert line.callId !in t.calls ==> t.calls - {line.callId} == t.calls;
  }

  /** A result emits the text still buffered, or its own if nothing is, then the usage, then the boundary. The boundary
      is completed if this or an earlier result is a success. A failed one carries the result's text as its error; one
      that reports an error after completed work carries it as a warning. */
  lemma ResultTells(t: Translator, line: Line)
    requires line.ResultLine?
    ensures var (after, events) := Translate(t, line);
      var text := if t.text == "" && line.result.Some? && line.result.value.isString then line.result.value.shown
                  else t.text;
      var success := line.subtype == "success";
      var shown := if line.result == None then None else Some(line.result.value.shown);
      var warning :=
        if t.completedWork then Some(if shown == None then "error after a completed result" else shown.value)
        else if success && line.isError then
          Some(if shown == None then "result marked is_error after a completed result" else shown.value)
        else None;
      && events == (if text == "" then [] else [AssistantMessage(text)])
                   + (if line.usage == None then [] else [UsageReported(line.usage.value)])
                   + [TurnEnded(if t.completedWork || success then Completed else Failed,
                                if t.completedWork || success then None else shown,
                                warning, if line.subtype == "" then None else Some(line.subtype), line.duration)]
      && after == Translator(t.calls, "", true, t.completedWork || success)
  {
  }

  // ---------------------------------------------------------------- the stream loop

  const MAX_GREP_CALLS := 6
  const MAX_READ_CALLS := 15

  function BudgetReason(tool: string, grepCount: nat, readCount: nat): Option<string> {
    if tool == "grep" && grepCount > MAX_GREP_CALLS then
      Some("grep budget exceeded (" + Decimal(MAX_GREP_CALLS) + ")")
    else if tool == "read" && readCount > MAX_READ_CALLS then
      Some("read budget exceeded (" + Decimal(MAX_READ_CALLS) + ")")
    else None
  }

  /** `spool` is what was written to events.jsonl; `pendingEnds` are the boundary events held back. */
  datatype Stream = Stream(translator: Translator, spool: seq<Event>, writing: bool, pendingEnds: seq<Event>,
                           grepCount: nat, readCount: nat, budget: Option<string>)

  const NO_STREAM := Stream(FRESH, [], false, [], 0, 0, None)

  /** What the loop does with one translated event. */
  function Emit(s: Stream, event: Event): Stream {
    if event.TurnEnded? then s.(pendingEnds := s.pendingEnds + [event])
    else
      var s := s.(spool := s.spool + [event]);
      if !event.ToolStarted? then s
      else
        var grepCount := if event.tool == "grep" then s.grepCount + 1 else s.grepCount;
        var readCount := if event.tool == "read" then s.readCount + 1 else s.readCount;
        s.(grepCount := grepCount, readCount := readCount, budget := BudgetReason(event.tool, grepCount, readCount))
  }

  function EmitAll(s: Stream, events: seq<Event>): Stream {
    if events == [] then s else Emit(EmitAll(s, events[..|events| - 1]), events[|events| - 1])
  }

  function Feed(s: Stream, line: Line): Stream {
    if line.Blank? then s
    else
      var s := if s.writing then s else s.(writing := true, spool := s.spool + [TurnStarted]);
      if line.NotJson? then s
      else
        var (translator, events) := Translate(s.translator, line);
        EmitAll(s.(translator := translator), events)
  }

  function FeedAll(lines: seq<Line>): Stream {
    if lines == [] then NO_STREAM else Feed(FeedAll(lines[..|lines| - 1]), lines[|lines| - 1])
  }

  lemma NothingFed()
    ensures FeedAll([]) == NO_STREAM
  {
  }

  /** The reading budget breaks out of the events of one line only after that line's last event. */
  lemma ToolStartIsLast(t: Translator, line: Line)
    ensures var events := Translate(t, line).1;
      forall i :: 0 <= i < |events| - 1 ==> !events[i].ToolStarted?
  {
  }

  /** The stream loop over every line the process wrote. Each event is dealt with as it arrives; a broken
      budget skips the rest of its line's events, of which there are none. */
  method StreamLoop(translator: CursorStreamTranslator, lines: seq<Line>) returns (s: Stream)
    requires translator.State() == FRESH
    modifies translator
    ensures s == FeedAll(lines) && translator.State() == s.translator
  {
    hide Translate;
    var spool: seq<Event>, writing, pendingEnds: seq<Event> := [], false, [];
    var grepCount: nat, readCount: nat, budget: Option<string> := 0, 0, None;
    for n := 0 to |lines|
      invariant Stream(translator.State(), spool, writing, pendingEnds, grepCount, readCount, budget)
        == FeedAll(lines[..n])
    {
      assert lines[..n + 1][..n] == lines[..n];
      var line := lines[n];
      if line.Blank? {
        continue;
      }
      if !writing {
        writing := true;
        spool := spool + [TurnStarted];
      }
      if line.NotJson? {
        continue;
      }
      ToolStartIsLast(translator.State(), line);
      var events := translator.Handle(line);
      ghost var begun := Stream(translator.State(), spool, writing, pendingEnds, grepCount, readCount, budget);
      assert EmitAll(begun, events) == FeedAll(lines[..n + 1]);
      var i := 0;
      while i < |events|
        invariant 0 <= i <= |events|
        invariant Stream(translator.State(), spool, writing, pendingEnds, grepCount, readCount, budget)
          == EmitAll(begun, events[..i])
      {
        assert events[..i + 1][..i] == events[..i];
        var event := events[i];
        i := i + 1;
        if event.TurnEnded? {
          pendingEnds := pendingEnds + [event];
          continue;
        }
        spool := spool + [event];
        if event.ToolStarted? {
          if event.tool == "grep" {
            grepCount := grepCount + 1;
          } else if event.tool == "read" {
            readCount := readCount + 1;
          }
          budget := BudgetReason(event.tool, grepCount, readCount);
          if budget.Some? {
            assert i == |events|;
            break;
          }
        }
      }
      assert events[..|events|] == events;
    }
    assert lines[..|lines|] == lines;
    s := Stream(Translator(translator.calls, translator.text, translator.sawTurnEnd, translator.completedWork),
                spool, writing, pendingEnds, grepCount, readCount, budget);
  }

  // ---------------------------------------------------------------- the turn and its durable record

  datatype TurnOutcome = TurnOutcome(returncode: int, cancelled: bool, plumbing: bool, error: Option<string>)

  datatype ExitState = ExitState(returncode: int, cancelled: bool, plumbing: bool, error: Option<string>)

  /** What persist_result handed back, and the error if writing result.json failed. An empty `sha` is none. */
  datatype Persist = Persist(sha: string, error: string, writeError: Option<string>)

  /** How far the supervisor came before the turn. */
  datatype Startup = NotReady(known: Option<string>, message: string) | Ready(worktree: string)

  /** An exception that breaks the turn off: while it reads the stream, or while it writes its closing events,
      after `written` of them. */
  datatype Break = WhileStreaming(message: string) | WhileClosing(message: string, written: nat)

  /** Everything the process and the operator did; `timeout` is the time limit as str() shows it. */
  datatype Env = Env(startup: Startup, cancelledBefore: bool, lines: seq<Line>, broken: Option<Break>,
                     returncode: int, cancelRequested: bool, timedOut: bool, timeout: string,
                     stderrTail: string, persist: Persist)

  predicate IsSuccess(line: Line) {
    line.ResultLine? && line.subtype == "success"
  }

  predicate HasSuccess(lines: seq<Line>) {
    exists i :: 0 <= i < |lines| && IsSuccess(lines[i])
  }

  predicate HasResult(lines: seq<Line>) {
    exists i :: 0 <= i < |lines| && lines[i].ResultLine?
  }

  function CountResults(lines: seq<Line>): nat {
    if lines == [] then 0
    else CountResults(lines[..|lines| - 1]) + (if lines[|lines| - 1].ResultLine? then 1 else 0)
  }

  function Ends(events: seq<Event>): (r: seq<Event>)
    ensures forall e :: e in r ==> e.TurnEnded?
  {
    if events == [] then []
    else Ends(events[..|events| - 1]) + (if events[|events| - 1].TurnEnded? then [events[|events| - 1]] else [])
  }

  function Others(events: seq<Event>): (r: seq<Event>)
    ensures forall e :: e in r ==> !e.TurnEnded?
  {
    if events == [] then []
    else Others(events[..|events| - 1]) + (if events[|events| - 1].TurnEnded? then [] else [events[|events| - 1]])
  }

  // ---------------------------------------------------------------- what the stream leaves behind

  lemma {:induction false} EmitAllTells(s: Stream, events: seq<Event>)
    ensures var after := EmitAll(s, events);
      && after.translator == s.translator && after.writing == s.writing
      && after.spool == s.spool + Others(events) && after.pendingEnds == s.pendingEnds + Ends(events)
  {
    if events != [] {
      EmitAllTells(s, events[..|events| - 1]);
    }
  }

  lemma {:induction false} EndsConcat(a: seq<Event>, b: seq<Event>)
    ensures Ends(a + b) == Ends(a) + Ends(b)
  {
    if b == [] {
      assert a + b == a;
    } else {
      EndsConcat(a, b[..|b| - 1]);
      assert (a + b)[..|a + b| - 1] == a + b[..|b| - 1];
    }
  }

  lemma {:induction false} NoEnds(events: seq<Event>)
    requires forall e :: e in events ==> !e.TurnEnded?
    ensures Ends(events) == []
  {
    if events != [] {
      NoEnds(events[..|events| - 1]);
      assert events[|events| - 1] in events;
    }
  }

  /** Only a `result` line yields a boundary event, and it yields exactly one. */
  lemma BoundaryPerResult(t: Translator, line: Line)
    ensures Ends(Translate(t, line).1) == if line.ResultLine? then [Boundary(line, t.completedWork)] else []
  {
    hide CanonicalTool, PathsOf, CommandOf, Or, Boundary;
    var events := Translate(t, line).1;
    if line.ResultLine? {
      hide TranslateCall;
      var front, last := events[..|events| - 1], events[|events| - 1];
      assert front + [last] == events;
      NoEnds(front);
    } else {
      hide TranslateResult, Ends;
      NoEnds(events);
    }
  }

  lemma FlagsFollow(t: Translator, line: Line)
    ensures Translate(t, line).0.completedWork == (t.completedWork || IsSuccess(line))
    ensures Translate(t, line).0.sawTurnEnd == (t.sawTurnEnd || line.ResultLine?)
  {
  }

  lemma FeedTells(s: Stream, line: Line)
    ensures var after := Feed(s, line);
      && after.translator.completedWork == (s.translator.completedWork || IsSuccess(line))
      && after.translator.sawTurnEnd == (s.translator.sawTurnEnd || line.ResultLine?)
      && after.pendingEnds == s.pendingEnds
        + (if line.ResultLine? then [Boundary(line, s.translator.completedWork)] else [])
      && ((forall e :: e in s.spool ==> !e.TurnEnded?) ==> forall e :: e in after.spool ==> !e.TurnEnded?)
  {
    if !line.Blank? && !line.NotJson? {
      var begun := if s.writing then s else s.(writing := true, spool := s.spool + [TurnStarted]);
      var (translator, events) := Translate(s.translator, line);
      BoundaryPerResult(s.translator, line);
      FlagsFollow(s.translator, line);
      EmitAllTells(begun.(translator := translator), events);
      hide Translate, EmitAll, Boundary;
    }
  }

  lemma ResultsFollow(front: seq<Line>, line: Line)
    ensures HasSuccess(front + [line]) == (HasSuccess(front) || IsSuccess(line))
    ensures HasResult(front + [line]) == (HasResult(front) || line.ResultLine?)
  {
    var lines := front + [line];
    assert lines[|front|] == line;
    assert forall i :: 0 <= i < |front| ==> lines[i] == front[i];
  }

  /** The flags of the translator and the boundary events held back, as facts about the stream alone. */
  lemma {:induction false} StreamTells(lines: seq<Line>)
    ensures var s := FeedAll(lines);
      && s.translator.completedWork == HasSuccess(lines)
      && s.translator.sawTurnEnd == HasResult(lines)
      && |s.pendingEnds| == CountResults(lines)
      && (forall e :: e in s.pendingEnds ==> e.TurnEnded?)
      && (forall e :: e in s.spool ==> !e.TurnEnded?)
      && (HasResult(lines) <==> s.pendingEnds != [])
      && (HasResult(lines) ==>
            s.pendingEnds[|s.pendingEnds| - 1].status == (if HasSuccess(lines) then Completed else Failed))
  {
    if lines == [] {
      assert !HasSuccess(lines) && !HasResult(lines);
    } else {
      hide Feed, HasSuccess, HasResult;
      var front, line := lines[..|lines| - 1], lines[|lines| - 1];
      StreamTells(front);
      assert lines == front + [line];
      ResultsFollow(front, line);
      FeedTells(FeedAll(front), line);
      SuccessIsResult(front);
    }
  }

  /** All that the lines say, each taken in the state that the lines before it leave. */
  function AllSaid(lines: seq<Line>): seq<Event> {
    if lines == [] then []
    else
      var front := lines[..|lines| - 1];
      AllSaid(front) + Translate(FeedAll(front).translator, lines[|lines| - 1]).1
  }

  /** The spool opens with one start of the turn as soon as there is a line that is not blank. Behind it stand, in
      order, all events of the lines but the boundaries, which are held back in order. */
  lemma {:induction false} SpoolTells(lines: seq<Line>)
    ensures var s := FeedAll(lines); var begun := exists i :: 0 <= i < |lines| && lines[i] != Blank;
      && (s.writing <==> begun)
      && s.spool == (if begun then [TurnStarted] else []) + Others(AllSaid(lines))
      && s.pendingEnds == Ends(AllSaid(lines))
  {
    SpoolFollows(lines);
    WritingTells(lines);
    hide FeedAll, AllSaid, Others, Ends;
  }

  lemma {:induction false} WritingTells(lines: seq<Line>)
    ensures FeedAll(lines).writing <==> exists i :: 0 <= i < |lines| && lines[i] != Blank
  {
    if lines != [] {
      var front, line := lines[..|lines| - 1], lines[|lines| - 1];
      WritingTells(front);
      FeedAppends(FeedAll(front), line);
      hide Feed;
      assert forall i :: 0 <= i < |front| ==> lines[i] == front[i];
      assert lines[|front|] == line;
    }
  }

  lemma {:induction false} SpoolFollows(lines: seq<Line>)
    ensures var s := FeedAll(lines);
      && s.spool == (if s.writing then [TurnStarted] else []) + Others(AllSaid(lines))
      && s.pendingEnds == Ends(AllSaid(lines))
      && (!s.writing ==> AllSaid(lines) == [])
  {
    NothingSaid();
    hide FeedAll, AllSaid, Others, Ends;
    if lines != [] {
      var front, line := lines[..|lines| - 1], lines[|lines| - 1];
      SpoolFollows(front);
      assert lines == front + [line];
      var more, ends := SaidStep(front, line);
      var before, said := FeedAll(front).spool, Others(AllSaid(front));
      if FeedAll(front).writing {
        assert before + [] + more == [TurnStarted] + (said + more);
      } else {
        assert before == [] && said == [];
      }
    }
  }

  lemma NothingSaid()
    ensures FeedAll([]) == NO_STREAM && AllSaid([]) == [] && Others([]) == [] && Ends([]) == []
  {
  }

  lemma SaidStep(front: seq<Line>, line: Line) returns (more: seq<Event>, ends: seq<Event>)
    ensures var s, after := FeedAll(front), FeedAll(front + [line]);
      var said, longer := AllSaid(front), AllSaid(front + [line]);
      && (after.writing <==> s.writing || line != Blank)
      && after.spool == s.spool + (if s.writing || line == Blank then [] else [TurnStarted]) + more
      && Others(longer) == Others(said) + more
      && after.pendingEnds == s.pendingEnds + ends && Ends(longer) == Ends(said) + ends
      && (line == Blank ==> longer == said && more == [])
  {
    var lines, s := front + [line], FeedAll(front);
    assert lines[..|lines| - 1] == front;
    var events := Translate(s.translator, line).1;
    OthersConcat(AllSaid(front), events);
    EndsConcat(AllSaid(front), events);
    FeedAppends(s, line);
    assert line == Blank ==> events == [];
    more, ends := Others(events), Ends(events);
    hide Translate, Feed;
  }

  lemma {:induction false} OthersConcat(a: seq<Event>, b: seq<Event>)
    ensures Others(a + b) == Others(a) + Others(b)
  {
    if b == [] {
      assert a + b == a;
    } else {
      OthersConcat(a, b[..|b| - 1]);
      assert (a + b)[..|a + b| - 1] == a + b[..|b| - 1];
    }
  }

  lemma FeedAppends(s: Stream, line: Line)
    ensures var after, events := Feed(s, line), Translate(s.translator, line).1;
      && (after.writing <==> s.writing || line != Blank)
      && after.spool == s.spool + (if s.writing || line == Blank then [] else [TurnStarted]) + Others(events)
      && after.pendingEnds == s.pendingEnds + Ends(events)
  {
    var events := Translate(s.translator, line).1;
    if line in {Blank, NotJson} {
      assert events == [] && Others(events) == [] && Ends(events) == [];
    } else {
      var begun := if s.writing then s else s.(writing := true, spool := s.spool + [TurnStarted]);
      EmitAllTells(begun.(translator := Translate(s.translator, line).0), events);
      hide Translate, EmitAll, Others, Ends;
    }
  }

  // ---------------------------------------------------------------- the reading budget

  /** The line reports that a tool call started. */
  predicate StartsCall(line: Line) {
    line.ToolCall? && line.key != "" && line.subtype == "started"
  }

  function CountStarts(lines: seq<Line>, tool: string): nat {
    if lines == [] then 0
    else
      var last := lines[|lines| - 1];
      CountStarts(lines[..|lines| - 1], tool)
      + (if StartsCall(last) && CanonicalTool(last.key, last.callId) == tool then 1 else 0)
  }

  /** The tool of the last call the stream started. */
  function LastStarted(lines: seq<Line>): Option<string> {
    if lines == [] then None
    else
      var last := lines[|lines| - 1];
      if StartsCall(last) then Some(CanonicalTool(last.key, last.callId)) else LastStarted(lines[..|lines| - 1])
  }

  /** The stream has more calls of a tool than the budget allows. */
  predicate Overrun(lines: seq<Line>) {
    CountStarts(lines, "grep") > 6 || CountStarts(lines, "read") > 15
  }

  /** The last call started is one that the budget no longer allowed. */
  predicate LastCallOverruns(lines: seq<Line>) {
    || (LastStarted(lines) == Some("grep") && CountStarts(lines, "grep") > 6)
    || (LastStarted(lines) == Some("read") && CountStarts(lines, "read") > 15)
  }

  lemma {:induction false} QuietEvents(s: Stream, events: seq<Event>)
    requires forall e :: e in events ==> !e.ToolStarted?
    ensures var after := EmitAll(s, events);
      after.grepCount == s.grepCount && after.readCount == s.readCount && after.budget == s.budget
  {
    if events != [] {
      QuietEvents(s, events[..|events| - 1]);
      assert events[|events| - 1] in events;
    }
  }

  /** A line that starts a call ends its events with that start; no other line has one. */
  lemma StartedEvent(t: Translator, line: Line)
    ensures var events := Translate(t, line).1;
      if StartsCall(line) then
        && events != [] && events[|events| - 1].ToolStarted?
        && events[|events| - 1].tool == CanonicalTool(line.key, line.callId)
        && forall e :: e in events[..|events| - 1] ==> !e.ToolStarted?
      else forall e :: e in events ==> !e.ToolStarted?
  {
    hide CanonicalTool, PathsOf, CommandOf, Or, Boundary;
    if StartsCall(line) {
      var events := Translate(t, line).1;
      assert events[..|events| - 1] == Message(t.text);
    }
  }

  /** Only a line that starts a call touches the counts, and it decides the reason anew. */
  lemma FeedCounts(s: Stream, line: Line)
    ensures var after := Feed(s, line);
      if StartsCall(line) then
        var tool := CanonicalTool(line.key, line.callId);
        && after.grepCount == s.grepCount + (if tool == "grep" then 1 else 0)
        && after.readCount == s.readCount + (if tool == "read" then 1 else 0)
        && after.budget == BudgetReason(tool, after.grepCount, after.readCount)
      else after.grepCount == s.grepCount && after.readCount == s.readCount && after.budget == s.budget
  {
    StartedEvent(s.translator, line);
    hide CanonicalTool, BudgetReason, Translate;
    if !line.Blank? && !line.NotJson? {
      var begun := if s.writing then s else s.(writing := true, spool := s.spool + [TurnStarted]);
      var (translator, events) := Translate(s.translator, line);
      var start := begun.(translator := translator);
      if StartsCall(line) {
        var front, last := events[..|events| - 1], events[|events| - 1];
        QuietEvents(start, front);
        assert EmitAll(start, events) == Emit(EmitAll(start, front), last);
      } else {
        QuietEvents(start, events);
      }
      hide EmitAll;
    }
  }

  lemma BudgetTexts()
    ensures forall g: nat, r: nat ::
      BudgetReason("grep", g, r) == if g > 6 then Some("grep budget exceeded (6)") else None
    ensures forall g: nat, r: nat ::
      BudgetReason("read", g, r) == if r > 15 then Some("read budget exceeded (15)") else None
  {
    assert Decimal(6) == "6" && Decimal(1) == "1" && Decimal(15) == "15";
    assert "grep budget exceeded (" + "6" + ")" == "grep budget exceeded (6)";
    assert "read budget exceeded (" + "15" + ")" == "read budget exceeded (15)";
  }

  /** The counts and the reason at the end of a stream, as facts about its lines: the reason is present exactly
      when the last call started was over its budget. */
  lemma {:induction false} BudgetFollowsLastCall(lines: seq<Line>)
    ensures var s := FeedAll(lines);
      && s.grepCount == CountStarts(lines, "grep") && s.readCount == CountStarts(lines, "read")
      && (s.budget.Some? <==> LastCallOverruns(lines))
      && (LastStarted(lines).None? ==> s.budget.None?)
      && (LastStarted(lines).Some? ==>
            s.budget == BudgetReason(LastStarted(lines).value, CountStarts(lines, "grep"), CountStarts(lines, "read")))
  {
    BudgetTexts();
    hide Feed, CanonicalTool, StartsCall;
    if lines != [] {
      BudgetFollowsLastCall(lines[..|lines| - 1]);
      FeedCounts(FeedAll(lines[..|lines| - 1]), lines[|lines| - 1]);
    }
  }

  /** What the reason says: the tool over budget and its limit. */
  lemma BudgetReasonTells(lines: seq<Line>)
    ensures LastCallOverruns(lines) ==>
      FeedAll(lines).budget == Some(if LastStarted(lines) == Some("grep") then "grep budget exceeded (6)"
                                    else "read budget exceeded (15)")
  {
    BudgetFollowsLastCall(lines);
    BudgetTexts();
    hide FeedAll, BudgetReason, CountStarts, LastStarted;
  }

  /** An overrun is noticed at some line exactly when the stream has one. */
  lemma {:induction false} OverrunIsNoticed(lines: seq<Line>)
    ensures Overrun(lines) <==> exists k :: 0 <= k <= |lines| && FeedAll(lines[..k]).budget.Some?
  {
    if lines == [] {
      assert lines[..0] == [];
    } else {
      var front := lines[..|lines| - 1];
      OverrunIsNoticed(front);
      BudgetFollowsLastCall(lines);
      assert lines[..|lines|] == lines;
      assert forall k :: 0 <= k <= |front| ==> front[..k] == lines[..k];
      hide FeedAll;
      if Overrun(front) {
        var k :| 0 <= k <= |front| && FeedAll(front[..k]).budget.Some?;
        assert FeedAll(lines[..k]).budget.Some?;
      } else {
        assert Overrun(lines) <==> LastCallOverruns(lines);
        assert Overrun(lines) ==> FeedAll(lines[..|lines|]).budget.Some?;
      }
    }
  }

  function Start(key: string): Line {
    ToolCall("", key, "started", NoArgs, Succeeded, None)
  }

  function Greps(n: nat): seq<Line> {
    if n == 0 then [] else Greps(n - 1) + [Start("grepToolCall")]
  }

  lemma ToolNames()
    ensures CanonicalTool("grepToolCall", "") == "grep" && CanonicalTool("shellToolCall", "") == "bash"
  {
    assert Lower("grep") == "grep" && Lower("shell") == "shell";
    assert "grepToolCall"[..4] == "grep" && "grepToolCall"[4..] == "ToolCall";
    assert "shellToolCall"[..5] == "shell" && "shellToolCall"[5..] == "ToolCall";
  }

  lemma {:induction false} CountGreps(n: nat)
    ensures |Greps(n)| == n && CountStarts(Greps(n), "grep") == n && CountStarts(Greps(n), "read") == 0
    ensures n > 0 ==> LastStarted(Greps(n)) == Some("grep")
  {
    if n > 0 {
      CountGreps(n - 1);
      ToolNames();
      hide CanonicalTool;
      var front, last := Greps(n - 1), Start("grepToolCall");
      assert Greps(n) == front + [last];
      assert StartsCall(last) && CanonicalTool(last.key, last.callId) == "grep";
      assert (front + [last])[..n - 1] == front;
    }
  }

  lemma AfterGreps(n: nat, line: Line)
    ensures var lines := Greps(n) + [line];
      && CountStarts(lines, "read") ==
        (if StartsCall(line) && CanonicalTool(line.key, line.callId) == "read" then 1 else 0)
      && CountStarts(lines, "grep") ==
        n + (if StartsCall(line) && CanonicalTool(line.key, line.callId) == "grep" then 1 else 0)
      && LastStarted(lines)
         == if StartsCall(line) then Some(CanonicalTool(line.key, line.callId)) else LastStarted(Greps(n))
  {
    CountGreps(n);
    var lines := Greps(n) + [line];
    hide Greps, CanonicalTool, StartsCall;
    assert lines[..|lines| - 1] == Greps(n);
  }

  /** Where the reason goes: after seven grep calls it is there, and one shell call later it is not. */
  lemma ShellCallForgetsOverrun()
    ensures FeedAll(Greps(7)).budget == Some("grep budget exceeded (6)")
    ensures var s := FeedAll(Greps(7) + [Start("shellToolCall")]); s.budget == None && s.grepCount == 7
  {
    ToolNames();
    hide FeedAll, Greps, CanonicalTool, CountStarts, LastStarted;
    BudgetTexts();
    CountGreps(7);
    AfterGreps(7, Start("shellToolCall"));
    BudgetFollowsLastCall(Greps(7));
    BudgetFollowsLastCall(Greps(7) + [Start("shellToolCall")]);
  }

  // ---------------------------------------------------------------- the turn as a function of its environment

  /** The lines the turn read: none when it was cancelled before it started. */
  function Read(env: Env): seq<Line> {
    if env.cancelledBefore then [] else env.lines
  }

  function ReturnCode(env: Env): int {
    if env.cancelledBefore then 143 else env.returncode
  }

  /** A cancellation counts only when the work was not already complete. */
  predicate WasCancelled(env: Env) {
    env.cancelledBefore || (env.returncode != 0 && env.cancelRequested && !HasSuccess(env.lines))
  }

  /** The error _stream_turn returns. */
  function StreamError(s: Stream, env: Env): Option<string> {
    if s.budget.Some? then s.budget
    else if env.timedOut then Some("turn exceeded " + env.timeout + "s and was terminated")
    else if env.returncode != 0 && !s.translator.sawTurnEnd then
      Some(Or(Some(env.stderrTail), "cursor-agent exited with code " + Code(env.returncode)))
    else None
  }

  /** The warning of a process that died after its result. */
  function CrashWarning(env: Env): Option<string> {
    if HasSuccess(Read(env)) && env.returncode != 0 then
      Some(Or(StreamError(FeedAll(Read(env)), env),
              "cursor-agent exited with code " + Code(env.returncode) + " after a completed result"))
    else None
  }

  function TurnError(env: Env): Option<string> {
    if env.cancelledBefore then Some("cancelled before the turn started")
    else if CrashWarning(env).Some? then None
    else StreamError(FeedAll(Read(env)), env)
  }

  /** setdefault("warning", ...) on every boundary event held back. */
  function Warned(ends: seq<Event>, warning: Option<string>): seq<Event>
    requires forall e :: e in ends ==> e.TurnEnded?
  {
    seq(|ends|, i requires 0 <= i < |ends| =>
      if warning.Some? && ends[i].warning.None? then ends[i].(warning := warning) else ends[i])
  }

  /** The boundary a turn without a `result` gets. */
  function Synthesized(env: Env): Event {
    TurnEnded(if WasCancelled(env) then Cancelled else Failed,
              Some(Or(TurnError(env), "cursor-agent exited with code " + Code(ReturnCode(env)))), None, None, None)
  }

  /** What the turn writes once the process is gone: the boundaries held back, or the buffered text and the
      synthesized boundary. */
  function ClosingEvents(env: Env): seq<Event> {
    var s := FeedAll(Read(env));
    StreamTells(Read(env));
    if HasResult(Read(env)) then Warned(s.pendingEnds, CrashWarning(env))
    else Message(s.translator.text) + [Synthesized(env)]
  }

  /** events.jsonl after a turn that returned. */
  function TurnSpool(env: Env): seq<Event> {
    FeedAll(Read(env)).spool + ClosingEvents(env)
  }

  function OutcomeOf(env: Env): TurnOutcome {
    var rc, error := ReturnCode(env), TurnError(env);
    var plumbing := !HasResult(Read(env)) && !WasCancelled(env);
    if HasSuccess(Read(env)) then TurnOutcome(0, WasCancelled(env), plumbing, None)
    else if HasResult(Read(env)) then
      StreamTells(Read(env));
      var ends := FeedAll(Read(env)).pendingEnds;
      var last := ends[|ends| - 1].error;
      TurnOutcome(if rc != 0 then rc else 1, WasCancelled(env), plumbing,
                  if last.Some? && last.value != "" then Some(Or(error, last.value)) else error)
    else TurnOutcome(rc, WasCancelled(env), plumbing, error)
  }

  /** The turn function came back instead of raising. */
  predicate TurnReturned(env: Env) {
    && env.startup.Ready?
    && match env.broken
       case None => true
       case Some(WhileStreaming(_)) => env.cancelledBefore
       case Some(WhileClosing(_, written)) => |ClosingEvents(env)| <= written
  }

  // ---------------------------------------------------------------- the turn, told by what happened

  /** A success, and a result, among the lines the turn read. */
  lemma ReadTells(env: Env)
    ensures HasSuccess(Read(env)) <==>
      !env.cancelledBefore
      && exists i :: 0 <= i < |env.lines| && env.lines[i].ResultLine? && env.lines[i].subtype == "success"
    ensures HasResult(Read(env)) <==>
      !env.cancelledBefore && exists i :: 0 <= i < |env.lines| && env.lines[i].ResultLine?
  {
    assert (exists i :: 0 <= i < |env.lines| && env.lines[i].ResultLine? && env.lines[i].subtype == "success")
           <==> exists i :: 0 <= i < |env.lines| && IsSuccess(env.lines[i]);
  }

  /** What a turn reports besides its boundaries: nothing went wrong, or the first of these: it was cancelled before it
      started, it was over budget, it took too long, or its process failed without a result. After a success the same
      is a warning instead, if the process failed, and is dropped if it did not. */
  lemma TurnErrorTells(env: Env)
    ensures var code := if env.returncode < 0 then "-" + Decimal(-env.returncode) else Decimal(env.returncode);
      var success := exists i :: 0 <= i < |env.lines| && env.lines[i].ResultLine? && env.lines[i].subtype == "success";
      var ended := exists i :: 0 <= i < |env.lines| && env.lines[i].ResultLine?;
      var budget := if LastStarted(env.lines) == Some("grep") then "grep budget exceeded (6)"
                    else "read budget exceeded (15)";
      && (env.cancelledBefore ==>
            TurnError(env) == Some("cancelled before the turn started") && CrashWarning(env) == None)
      && (!env.cancelledBefore && success && env.returncode != 0 ==>
            && TurnError(env) == None
            && CrashWarning(env) ==
                 Some(if LastCallOverruns(env.lines) then budget
                      else if env.timedOut then "turn exceeded " + env.timeout + "s and was terminated"
                      else "cursor-agent exited with code " + code + " after a completed result"))
      && (!env.cancelledBefore && !(success && env.returncode != 0) ==>
            && CrashWarning(env) == None
            && TurnError(env) ==
                 if LastCallOverruns(env.lines) then Some(budget)
                 else if env.timedOut then Some("turn exceeded " + env.timeout + "s and was terminated")
                 else if env.returncode != 0 && !ended then
                   Some(if env.stderrTail != "" then env.stderrTail else "cursor-agent exited with code " + code)
                 else None)
  {
    ReadTells(env);
    StreamTells(Read(env));
    SuccessIsResult(Read(env));
    BudgetFollowsLastCall(Read(env));
    BudgetReasonTells(Read(env));
    hide FeedAll, LastCallOverruns, LastStarted, CountStarts, HasSuccess, HasResult, BudgetReason;
  }

  /** The events a turn closes with. Without a result: the text still buffered and one boundary, cancelled exactly when
      the turn was cancelled before it started, or was asked to cancel and its process failed; it carries the turn's
      error or else the process's code. With results: their boundaries, those without a warning taking that of a
      crash. */
  lemma ClosingTells(env: Env)
    ensures var closing, s := ClosingEvents(env), FeedAll(if env.cancelledBefore then [] else env.lines);
      var ended := !env.cancelledBefore && exists i :: 0 <= i < |env.lines| && env.lines[i].ResultLine?;
      var rc := if env.cancelledBefore then 143 else env.returncode;
      && (!ended ==>
            closing == (if s.translator.text == "" then [] else [AssistantMessage(s.translator.text)])
              + [TurnEnded(if env.cancelledBefore || (env.returncode != 0 && env.cancelRequested) then Cancelled
                           else Failed,
                           Some(if TurnError(env) !in {None, Some("")} then TurnError(env).value
                                else "cursor-agent exited with code "
                                     + if rc < 0 then "-" + Decimal(-rc) else Decimal(rc)),
                           None, None, None)])
      && (ended ==>
            && |closing| == |s.pendingEnds|
            && forall i :: 0 <= i < |closing| ==>
                 var end := s.pendingEnds[i];
                 && end.TurnEnded?
                 && closing[i] == TurnEnded(end.status, end.error,
                                            if end.warning == None then CrashWarning(env) else end.warning,
                                            end.stopReason, end.duration))
  {
    ReadTells(env);
    StreamTells(Read(env));
    SuccessIsResult(Read(env));
    assert Read(env) == if env.cancelledBefore then [] else env.lines;
    hide FeedAll, HasSuccess, HasResult, TurnError, CrashWarning;
    var rc := ReturnCode(env);
    assert Or(TurnError(env), "cursor-agent exited with code " + Code(rc)) ==
      if TurnError(env) !in {None, Some("")} then TurnError(env).value
      else "cursor-agent exited with code " + if rc < 0 then "-" + Decimal(-rc) else Decimal(rc);
    if !HasResult(Read(env)) {
      assert WasCancelled(env) <==> env.cancelledBefore || (env.returncode != 0 && env.cancelRequested);
    }
  }

  /** When the turn function comes back: its attempt was ready, no exception broke off its reading, and none came before
      the last of its closing events was written. */
  lemma ReturnTells(env: Env)
    ensures TurnReturned(env) <==>
      && env.startup.Ready?
      && (env.broken.Some? && env.broken.value.WhileStreaming? ==> env.cancelledBefore)
      && (env.broken.Some? && env.broken.value.WhileClosing? ==>
            var ended := !env.cancelledBefore && exists i :: 0 <= i < |env.lines| && env.lines[i].ResultLine?;
            var text := FeedAll(if env.cancelledBefore then [] else env.lines).translator.text;
            env.broken.value.written >= if ended then CountResults(env.lines) else if text == "" then 1 else 2)
  {
    ClosingTells(env);
    StreamTells(Read(env));
    ReadTells(env);
    hide FeedAll, ClosingEvents, HasSuccess, HasResult;
  }

  /** The turn's error is the budget's reason. */
  predicate ErrorTellsOverrun(env: Env) {
    var budget := FeedAll(Read(env)).budget;
    budget.Some? && OutcomeOf(env).error == budget
  }

  /** The warning of a crash after completed work is the budget's reason. */
  predicate WarningTellsOverrun(env: Env) {
    var budget := FeedAll(Read(env)).budget;
    budget.Some? && CrashWarning(env) == budget
  }

  /** When a turn tells of an overrun: in its error exactly when the last call is the one over budget and the stream
      has no success; in the warning of its boundaries exactly when the last call is over budget, the stream has a
      success and the process failed. */
  lemma OverrunIsTold(env: Env)
    ensures ErrorTellsOverrun(env) <==> LastCallOverruns(Read(env)) && !HasSuccess(Read(env))
    ensures WarningTellsOverrun(env) <==>
      LastCallOverruns(Read(env)) && HasSuccess(Read(env)) && env.returncode != 0
  {
    BudgetFollowsLastCall(Read(env));
    StreamTells(Read(env));
    SuccessIsResult(Read(env));
    hide FeedAll, LastCallOverruns, LastStarted, CountStarts, HasSuccess, HasResult, WasCancelled;
    if env.cancelledBefore {
      NothingFed();
    }
    BudgetIsText(Read(env));
  }

  lemma BudgetIsText(lines: seq<Line>)
    ensures FeedAll(lines).budget.Some? ==> FeedAll(lines).budget.value != ""
  {
    BudgetFollowsLastCall(lines);
    hide FeedAll;
  }

  /** When a noticed overrun is gone from what the turn reports: from its error exactly when the last call is not the
      one over budget or the stream had a success, and from error and warnings alike exactly when the last call is
      not the one over budget or the process ended well after a success. */
  lemma OverrunIsForgotten(env: Env)
    ensures var lines := Read(env);
      var noticed := exists k :: 0 <= k <= |lines| && FeedAll(lines[..k]).budget.Some?;
      && (noticed && !ErrorTellsOverrun(env) <==>
            Overrun(lines) && (!LastCallOverruns(lines) || HasSuccess(lines)))
      && (noticed && !ErrorTellsOverrun(env) && !WarningTellsOverrun(env) <==>
            Overrun(lines) && (!LastCallOverruns(lines) || (HasSuccess(lines) && env.returncode == 0)))
  {
    OverrunIsNoticed(Read(env));
    OverrunIsTold(env);
    hide FeedAll, ErrorTellsOverrun, WarningTellsOverrun, HasSuccess, LastStarted, CountStarts;
  }

  /** Where a turn stays silent although the last call is over budget: seven grep calls, a success, and a process that
      ends well. */
  lemma SuccessHidesOverrun(env: Env)
    requires !env.cancelledBefore && env.returncode == 0
    requires env.lines == Greps(7) + [ResultLine("success", false, None, None, None)]
    ensures LastCallOverruns(Read(env)) && FeedAll(Read(env)).budget == Some("grep budget exceeded (6)")
    ensures OutcomeOf(env).error == None && CrashWarning(env) == None
  {
    var result := ResultLine("success", false, None, None, None);
    hide FeedAll, Greps, CanonicalTool, CountStarts, LastStarted, StreamError;
    BudgetTexts();
    CountGreps(7);
    AfterGreps(7, result);
    assert env.lines[|env.lines| - 1] == result;
    assert IsSuccess(result) && HasSuccess(Read(env));
    BudgetFollowsLastCall(Read(env));
  }

  /** The spool of a turn that returned ends with a boundary event, and it has one for every `result` of the
      stream or, without any, exactly one. The last one says completed exactly when the stream held a
      success, and cancelled only when there was no result at all. */
  lemma SpoolEndsWithBoundary(env: Env)
    ensures var spool := TurnSpool(env);
      && spool != [] && spool[|spool| - 1].TurnEnded?
      && |Ends(spool)| == (if HasResult(Read(env)) then CountResults(Read(env)) else 1)
      && (spool[|spool| - 1].status == Completed <==>
            !env.cancelledBefore
            && exists i :: 0 <= i < |env.lines| && env.lines[i].ResultLine? && env.lines[i].subtype == "success")
      && (spool[|spool| - 1].status == Cancelled <==>
            || env.cancelledBefore
            || (env.returncode != 0 && env.cancelRequested
                && forall i :: 0 <= i < |env.lines| ==> !env.lines[i].ResultLine?))
  {
    LastBoundary(env);
    ReadTells(env);
    SuccessIsResult(Read(env));
    hide TurnSpool, HasSuccess, HasResult, Ends;
  }

  lemma LastBoundary(env: Env)
    ensures var spool := TurnSpool(env);
      && spool != [] && spool[|spool| - 1].TurnEnded?
      && |Ends(spool)| == (if HasResult(Read(env)) then CountResults(Read(env)) else 1)
      && (spool[|spool| - 1].status == Completed <==> HasSuccess(Read(env)))
      && (spool[|spool| - 1].status == Cancelled <==> WasCancelled(env) && !HasResult(Read(env)))
  {
    var read := Read(env);
    StreamTells(read);
    hide FeedAll, CrashWarning, TurnError, StreamError, HasSuccess, HasResult, WasCancelled, Warned, Ends, Message;
    var s := FeedAll(read);
    NoEnds(s.spool);
    SuccessIsResult(read);
    if HasResult(read) {
      var ends := Warned(s.pendingEnds, CrashWarning(env));
      WarnedTells(s.pendingEnds, CrashWarning(env));
      AllEnds(ends);
      EndsConcat(s.spool, ends);
    } else {
      var message := Message(s.translator.text);
      MessageIsNoEnd(s.translator.text);
      NoEnds(message);
      AllEnds([Synthesized(env)]);
      EndsConcat(message, [Synthesized(env)]);
      EndsConcat(s.spool, message + [Synthesized(env)]);
    }
  }

  lemma MessageIsNoEnd(text: string)
    ensures forall e :: e in Message(text) ==> !e.TurnEnded?
  {
  }

  lemma WarnedTells(ends: seq<Event>, warning: Option<string>)
    requires forall e :: e in ends ==> e.TurnEnded?
    ensures var warned := Warned(ends, warning);
      && |warned| == |ends| && (forall e :: e in warned ==> e.TurnEnded?)
      && forall i :: 0 <= i < |ends| ==>
           warned[i].TurnEnded? && ends[i].TurnEnded? && warned[i].status == ends[i].status
  {
    assert forall i :: 0 <= i < |ends| ==> ends[i] in ends;
  }

  /** A process that dies after its completed result is still a success: code 0 and no error, and every boundary
      event of the spool carries a warning. */
  lemma CrashIsOnlyWarned(env: Env)
    requires HasSuccess(Read(env)) && ReturnCode(env) != 0
    ensures OutcomeOf(env) == TurnOutcome(0, false, false, None)
    ensures forall e :: e in TurnSpool(env) && e.TurnEnded? ==> e.warning.Some?
  {
    StreamTells(Read(env));
    SuccessIsResult(Read(env));
    assert CrashWarning(env).Some?;
    hide HasSuccess, HasResult, StreamError, TurnError, CrashWarning, FeedAll;
    var s := FeedAll(Read(env));
    var warned := Warned(s.pendingEnds, CrashWarning(env));
    WarnedTells(s.pendingEnds, CrashWarning(env));
    assert forall i :: 0 <= i < |warned| ==> warned[i].warning.Some?;
  }

  lemma SuccessIsResult(lines: seq<Line>)
    ensures HasSuccess(lines) ==> HasResult(lines)
  {
    if HasSuccess(lines) {
      var i :| 0 <= i < |lines| && IsSuccess(lines[i]);
      assert lines[i].ResultLine?;
    }
  }

  lemma {:induction false} AllEnds(events: seq<Event>)
    requires forall e :: e in events ==> e.TurnEnded?
    ensures Ends(events) == events
  {
    if events != [] {
      AllEnds(events[..|events| - 1]);
      assert events[|events| - 1] in events;
    }
  }

  /** LastTurnEnded of a spool, searching from its end. */
  function LastTurnEnded(spool: seq<Event>): (e: Option<Event>)
    ensures e.Some? ==> e.value.TurnEnded? && e.value in spool
    ensures e.None? ==> forall i :: 0 <= i < |spool| ==> !spool[i].TurnEnded?
  {
    if spool == [] then None
    else if spool[|spool| - 1].TurnEnded? then Some(spool[|spool| - 1])
    else LastTurnEnded(spool[..|spool| - 1])
  }

  method FindLastTurnEnded(spool: seq<Event>) returns (e: Option<Event>)
    ensures e == LastTurnEnded(spool)
  {
    var n := |spool|;
    assert spool[..n] == spool;
    while n > 0
      invariant 0 <= n <= |spool|
      invariant LastTurnEnded(spool) == LastTurnEnded(spool[..n])
    {
      if spool[n - 1].TurnEnded? {
        return Some(spool[n - 1]);
      }
      assert spool[..n][..n - 1] == spool[..n - 1];
      n := n - 1;
    }
    e := None;
  }

  /** The three tests the supervisor makes agree with the stream: a turn that returned is neither cancelled nor
      a plumbing failure and has no failed last boundary exactly when its stream held a success. */
  lemma SupervisorAgreesWithStream(env: Env)
    ensures var last := LastTurnEnded(TurnSpool(env));
      && last.Some? && last.value == TurnSpool(env)[|TurnSpool(env)| - 1]
      && (!OutcomeOf(env).cancelled && !OutcomeOf(env).plumbing && last.value.status != Failed <==>
          HasSuccess(Read(env)))
  {
    LastBoundary(env);
    SuccessIsResult(Read(env));
    hide TurnSpool, HasSuccess, HasResult, StreamError, CrashWarning, FeedAll;
  }

  // ---------------------------------------------------------------- the durable record

  /** The supervisor persists the attempt. */
  predicate Persists(env: Env) {
    TurnReturned(env) && HasSuccess(Read(env))
  }

  predicate PersistSucceeds(env: Env) {
    Persists(env) && env.persist.sha != "" && env.persist.writeError.None?
  }

  function PersistError(p: Persist): string {
    if p.writeError.Some? then "result handoff write failed: " + p.writeError.value
    else Or(NonEmpty(p.error), "no result commit")
  }

  /** What the last result of a stream says, if it says anything. */
  function LastResultText(lines: seq<Line>): Option<string> {
    if lines == [] then None
    else
      var last := lines[|lines| - 1];
      if !last.ResultLine? then LastResultText(lines[..|lines| - 1])
      else if last.result.Some? then Some(last.result.value.shown)
      else None
  }

  /** Without a success, the last boundary held back carries the text of the last result. */
  lemma {:induction false} LastFailureTells(lines: seq<Line>)
    requires !HasSuccess(lines)
    ensures HasResult(lines) ==>
      var ends := FeedAll(lines).pendingEnds;
      ends != [] && ends[|ends| - 1].TurnEnded? && ends[|ends| - 1].error == LastResultText(lines)
    ensures !HasResult(lines) ==> LastResultText(lines).None?
  {
    if lines != [] {
      var front, line := lines[..|lines| - 1], lines[|lines| - 1];
      assert lines == front + [line];
      ResultsFollow(front, line);
      LastFailureTells(front);
      FeedTells(FeedAll(front), line);
      StreamTells(front);
      hide Feed, HasSuccess, HasResult;
    }
  }

  /** What the supervisor makes of the turn. */
  function Seen(env: Env): TurnOutcome {
    match env.startup
    case NotReady(_, message) => TurnOutcome(127, false, true, Some("local attempt supervisor failed: " + message))
    case Ready(_) =>
      if TurnReturned(env) then OutcomeOf(env)
      else TurnOutcome(127, false, true, Some("local attempt supervisor failed: " + env.broken.value.message))
  }

  function FinalSpool(env: Env): seq<Event> {
    if env.startup.NotReady? then []
    else if TurnReturned(env) then TurnSpool(env)
    else if env.broken.value.WhileStreaming? then FeedAll(env.lines).spool
    else FeedAll(Read(env)).spool + ClosingEvents(env)[..env.broken.value.written]
  }

  function Worktree(env: Env): Option<string> {
    match env.startup
    case NotReady(known, _) => known
    case Ready(worktree) => Some(worktree)
  }

  /** The error of an attempt that is not persisted. */
  function UnpersistedError(env: Env): Option<string> {
    var last := LastTurnEnded(FinalSpool(env));
    var error := if last.Some? && last.value.status == Failed then
                   Some(Or(last.value.error, Or(Seen(env).error, "turn_ended status=failed")))
                 else Seen(env).error;
    if Worktree(env).Some? then
      Some(Or(error, "turn ended without a result") + "; worktree kept at " + Worktree(env).value)
    else error
  }

  function Exit(env: Env): ExitState {
    if PersistSucceeds(env) then ExitState(0, false, false, None)
    else if Persists(env) then
      ExitState(1, false, false,
                Some("persist failed; worktree kept at " + env.startup.worktree + ": " + PersistError(env.persist)))
    else
      var seen := Seen(env);
      ExitState(if seen.returncode != 0 then seen.returncode else 1, seen.cancelled, seen.plumbing,
                UnpersistedError(env))
  }

  /** Exit code 0 is recorded exactly for an attempt whose stream held a success and whose persist handed back
      a commit that became durable. */
  lemma ZeroMeansPersisted(env: Env)
    ensures Exit(env).returncode == 0 <==>
      TurnReturned(env) && HasSuccess(Read(env)) && env.persist.sha != "" && env.persist.writeError.None?
    ensures Exit(env).returncode == 0 ==> !Exit(env).cancelled && !Exit(env).plumbing && Exit(env).error.None?
  {
    hide UnpersistedError, HasSuccess, OutcomeOf;
  }

  /** What the durable record says of the attempt. It was cancelled exactly when its turn came back and was cancelled
      before it started, or was asked to cancel and its process failed without a success. It is a plumbing failure
      exactly when its turn did not come back, or came back without a result and not so cancelled. */
  lemma ExitTells(env: Env)
    ensures var success :=
        exists i :: 0 <= i < |env.lines| && env.lines[i].ResultLine? && env.lines[i].subtype == "success";
      var ended := exists i :: 0 <= i < |env.lines| && env.lines[i].ResultLine?;
      var rc := if env.cancelledBefore then 143 else env.returncode;
      && (Exit(env).cancelled <==>
            TurnReturned(env)
            && (env.cancelledBefore || (env.returncode != 0 && env.cancelRequested && !success)))
      && (Exit(env).plumbing <==>
            !TurnReturned(env)
            || (!ended && !env.cancelledBefore && !(env.returncode != 0 && env.cancelRequested)))
      && Exit(env).returncode ==
           (if !TurnReturned(env) then 127
            else if !env.cancelledBefore && success then
              if env.persist.sha != "" && env.persist.writeError == None then 0 else 1
            else if rc != 0 then rc else 1)
  {
    ReadTells(env);
    SuccessIsResult(Read(env));
    assert TurnReturned(env) ==> env.startup.Ready?;
    assert Read(env) == if env.cancelledBefore then [] else env.lines;
    hide HasSuccess, HasResult, TurnError, FeedAll, UnpersistedError, TurnReturned;
  }

  /** What the error of the durable record says, apart from what the turn itself reported. */
  lemma ExitErrorTells(env: Env)
    ensures var success := !env.cancelledBefore
        && exists i :: 0 <= i < |env.lines| && env.lines[i].ResultLine? && env.lines[i].subtype == "success";
      var p := env.persist;
      && (env.startup.NotReady? ==>
            var failure := "local attempt supervisor failed: " + env.startup.message;
            Exit(env).error == Some(if env.startup.known == None then failure
                                    else failure + "; worktree kept at " + env.startup.known.value))
      && (env.startup.Ready? && !TurnReturned(env)
          && (forall i :: 0 <= i < |FinalSpool(env)| ==> !FinalSpool(env)[i].TurnEnded?) ==>
            Exit(env).error == Some("local attempt supervisor failed: " + env.broken.value.message
                                    + "; worktree kept at " + env.startup.worktree))
      && (TurnReturned(env) && success ==>
            Exit(env).error ==
              if p.writeError.None? && p.sha != "" then None
              else Some("persist failed; worktree kept at " + env.startup.worktree + ": "
                        + if p.writeError.Some? then "result handoff write failed: " + p.writeError.value
                          else if p.error != "" then p.error else "no result commit"))
  {
    ReadTells(env);
    hide HasSuccess, HasResult, TurnSpool, ClosingEvents, FeedAll, OutcomeOf;
    var last := LastTurnEnded(FinalSpool(env));
    assert last.Some? ==> exists i :: 0 <= i < |FinalSpool(env)| && FinalSpool(env)[i] == last.value;
    hide FinalSpool;
  }

  /** What a turn leaves in the spool: nothing before it was ready; all of it when it came back; when it was broken off,
      what the stream said and as many of the closing events as were written. */
  lemma FinalSpoolTells(env: Env)
    ensures var said := FeedAll(if env.cancelledBefore then [] else env.lines).spool;
      && (env.startup.NotReady? ==> FinalSpool(env) == [])
      && (TurnReturned(env) ==> FinalSpool(env) == said + ClosingEvents(env))
      && (env.startup.Ready? && !TurnReturned(env) ==>
            FinalSpool(env) == said + if env.broken.value.WhileStreaming? then []
                                      else ClosingEvents(env)[..env.broken.value.written])
  {
    hide ClosingEvents, FeedAll;
  }

  /** The durable record of an unpersisted attempt whose last call is over budget: it names the reason, unless the last
      result of the stream has a text of its own, which comes first. */
  lemma ExitTellsOverrun(env: Env)
    requires TurnReturned(env) && LastCallOverruns(Read(env)) && !HasSuccess(Read(env))
    ensures FeedAll(Read(env)).budget.Some? && Exit(env).returncode != 0
    ensures Exit(env).error
         == Some(Or(LastResultText(Read(env)), FeedAll(Read(env)).budget.value)
                 + "; worktree kept at " + env.startup.worktree)
  {
    OverrunIsTold(env);
    BudgetIsText(Read(env));
    SupervisorAgreesWithStream(env);
    LastFailureTells(Read(env));
    ClosingBoundary(env);
    hide FeedAll, LastCallOverruns, HasSuccess, HasResult, TurnSpool, ClosingEvents, LastTurnEnded, StreamError;
    var reason := FeedAll(Read(env)).budget.value;
    assert OutcomeOf(env).error == Some(reason);
    assert TurnError(env) == Some(reason);
  }

  /** The last boundary of a turn without a success, with the error it carries. */
  lemma ClosingBoundary(env: Env)
    requires !HasSuccess(Read(env))
    ensures var spool := TurnSpool(env);
      && spool != [] && spool[|spool| - 1].TurnEnded?
      && (HasResult(Read(env)) ==>
            spool[|spool| - 1].error == LastResultText(Read(env)) && spool[|spool| - 1].status == Failed)
      && (!HasResult(Read(env)) ==> spool[|spool| - 1] == Synthesized(env))
  {
    StreamTells(Read(env));
    LastFailureTells(Read(env));
    hide FeedAll, HasSuccess, HasResult, StreamError, TurnError;
    var s := FeedAll(Read(env));
    WarnedTells(s.pendingEnds, CrashWarning(env));
    hide Message;
  }

  /** What the record of a turn without a success gives as its reason: the text of the last result if it has one, or
      else what the turn reported; if it reported nothing, that its last result failed, that it was cancelled without a
      result, or the code of its process. */
  lemma FailureTells(env: Env)
    requires TurnReturned(env)
    requires env.cancelledBefore
             || !exists i :: 0 <= i < |env.lines| && env.lines[i].ResultLine? && env.lines[i].subtype == "success"
    ensures env.startup.Ready?
    ensures var ended := !env.cancelledBefore && exists i :: 0 <= i < |env.lines| && env.lines[i].ResultLine?;
      var text, error := LastResultText(env.lines), TurnError(env);
      var reason :=
        if ended && text !in {None, Some("")} then text.value
        else if error !in {None, Some("")} then error.value
        else if ended then "turn_ended status=failed"
        else if env.cancelledBefore || (env.returncode != 0 && env.cancelRequested) then "turn ended without a result"
        else "cursor-agent exited with code "
             + if env.returncode < 0 then "-" + Decimal(-env.returncode) else Decimal(env.returncode);
      Exit(env).error == Some(reason + "; worktree kept at " + env.startup.worktree)
  {
    hide *;
    ReadTells(env);
    ReadIs(env);
    UnpersistedTells(env);
    OutcomeErrorTells(env);
    LastReason(env);
    FirstReason(LastResultText(Read(env)), TurnError(env), Code(env.returncode));
  }

  lemma ReadIs(env: Env)
    ensures Read(env) == if env.cancelledBefore then [] else env.lines
    ensures Code(env.returncode) ==
      if env.returncode < 0 then "-" + Decimal(-env.returncode) else Decimal(env.returncode)
    ensures WasCancelled(env) <==>
      env.cancelledBefore || (env.returncode != 0 && env.cancelRequested && !HasSuccess(env.lines))
    ensures LastResultText([]) == None
  {
    hide HasSuccess;
  }

  /** `a or b or c`, for the texts a record may give. */
  lemma FirstReason(text: Option<string>, error: Option<string>, code: string)
    ensures var outcome := if text !in {None, Some("")} then Some(Or(error, text.value)) else error;
      Or(Some(Or(text, Or(outcome, "turn_ended status=failed"))), "turn ended without a result") ==
        if text !in {None, Some("")} then text.value
        else if error !in {None, Some("")} then error.value
        else "turn_ended status=failed"
    ensures Or(error, "turn ended without a result") ==
      if error !in {None, Some("")} then error.value else "turn ended without a result"
    ensures var closing := if error !in {None, Some("")} then error.value else "cursor-agent exited with code " + code;
      Or(Some(Or(Some(closing), Or(error, "turn_ended status=failed"))), "turn ended without a result") == closing
  {
  }

  /** What the last boundary of a turn without a success says. */
  lemma LastReason(env: Env)
    requires !HasSuccess(Read(env))
    ensures TurnSpool(env) != [] && TurnSpool(env)[|TurnSpool(env)| - 1].TurnEnded?
    ensures var last := TurnSpool(env)[|TurnSpool(env)| - 1];
      && (HasResult(Read(env)) ==> last.status == Failed && last.error == LastResultText(Read(env)))
      && (!HasResult(Read(env)) && WasCancelled(env) ==> last.status == Cancelled)
      && (!HasResult(Read(env)) && !WasCancelled(env) ==>
            && last.status == Failed && !env.cancelledBefore
            && last.error == Some(if TurnError(env) !in {None, Some("")} then TurnError(env).value
                                  else "cursor-agent exited with code " + Code(env.returncode)))
  {
    ClosingBoundary(env);
    hide FeedAll, HasSuccess, HasResult, TurnSpool, TurnError, LastResultText;
  }

  lemma UnpersistedTells(env: Env)
    requires TurnReturned(env) && !HasSuccess(Read(env))
    ensures env.startup.Ready?
    ensures TurnSpool(env) != [] && TurnSpool(env)[|TurnSpool(env)| - 1].TurnEnded?
    ensures var last, error := TurnSpool(env)[|TurnSpool(env)| - 1], OutcomeOf(env).error;
      Exit(env).error ==
        Some(Or(if last.status == Failed then Some(Or(last.error, Or(error, "turn_ended status=failed"))) else error,
                "turn ended without a result") + "; worktree kept at " + env.startup.worktree)
  {
    SupervisorAgreesWithStream(env);
    LastBoundary(env);
    assert FinalSpool(env) == TurnSpool(env) && Seen(env) == OutcomeOf(env);
    assert Exit(env).error == UnpersistedError(env);
    hide HasSuccess, HasResult, TurnSpool, FinalSpool, Seen, Exit, OutcomeOf, LastTurnEnded, TurnReturned, Or;
  }

  lemma OutcomeErrorTells(env: Env)
    requires !HasSuccess(Read(env))
    ensures OutcomeOf(env).error ==
      if HasResult(Read(env)) && LastResultText(Read(env)) !in {None, Some("")} then
        Some(Or(TurnError(env), LastResultText(Read(env)).value))
      else TurnError(env)
  {
    StreamTells(Read(env));
    LastFailureTells(Read(env));
    hide FeedAll, HasSuccess, HasResult, TurnError, LastResultText;
  }

  /** The files of one attempt that outlive its supervisor. `result` is the commit recorded in result.json. */
  class AttemptDir {
    var spool: seq<Event>
    var result: Option<string>
    var exitState: Option<ExitState>
    var worktreeKept: bool

    constructor ()
      ensures spool == [] && result == None && exitState == None && worktreeKept
    {
      spool, result, exitState, worktreeKept := [], None, None, true;
    }

    /** The writer, which takes `room` more events and then fails. */
    method Write(events: seq<Event>, room: Option<nat>) returns (ok: bool)
      modifies this`spool
      ensures ok <==> (room.Some? ==> |events| <= room.value)
      ensures spool == old(spool) + if ok then events else events[..room.value]
    {
      for i := 0 to |events|
        invariant room.Some? ==> i <= room.value
        invariant spool == old(spool) + events[..i]
      {
        if room.Some? && i == room.value {
          return false;
        }
        spool := spool + [events[i]];
      }
      return true;
    }

    method EmitPending(pendingEnds: seq<Event>, warning: Option<string>, room: Option<nat>) returns (ok: bool)
      requires forall e :: e in pendingEnds ==> e.TurnEnded?
      modifies this`spool
      ensures ok <==> (room.Some? ==> |pendingEnds| <= room.value)
      ensures spool == old(spool)
        + if ok then Warned(pendingEnds, warning) else Warned(pendingEnds, warning)[..room.value]
    {
      for i := 0 to |pendingEnds|
        invariant room.Some? ==> i <= room.value
        invariant spool == old(spool) + Warned(pendingEnds, warning)[..i]
      {
        var pending := pendingEnds[i];
        if warning.Some? && pending.warning.None? {
          pending := pending.(warning := warning);
        }
        ok := Write([pending], if room.Some? then Some(room.value - i) else None);
        if !ok {
          return;
        }
      }
      return true;
    }

    /** The stream phase: nothing at all when the turn was cancelled before it started. */
    method StreamTurn(translator: CursorStreamTranslator, env: Env)
      returns (s: Stream, cancelled: bool, returncode: int, error: Option<string>)
      requires translator.State() == FRESH
      modifies translator
      ensures s == FeedAll(Read(env)) && translator.State() == s.translator
      ensures cancelled == WasCancelled(env) && returncode == ReturnCode(env)
      ensures error == if env.cancelledBefore then Some("cancelled before the turn started") else StreamError(s, env)
    {
      StreamTells(Read(env));
      NothingFed();
      hide HasSuccess, HasResult, FeedAll, StreamError;
      if env.cancelledBefore {
        return NO_STREAM, true, 143, Some("cancelled before the turn started");
      }
      s := StreamLoop(translator, env.lines);
      returncode, error := env.returncode, StreamError(s, env);
      cancelled := returncode != 0 && env.cancelRequested && !translator.completedWork;
    }

    /** _run_cursor_turn; an exception leaves the spool written so far. */
    method RunCursorTurn(env: Env) returns (r: Result<TurnOutcome, string>)
      requires spool == [] && env.startup.Ready?
      modifies this`spool
      ensures r == if TurnReturned(env) then Success(OutcomeOf(env)) else Failure(env.broken.value.message)
      ensures spool == FinalSpool(env)
    {
      hide HasSuccess, HasResult, FeedAll, StreamError;
      var translator := new CursorStreamTranslator();
      ghost var read := Read(env);
      StreamTells(read);
      SuccessIsResult(read);
      var s, cancelled, returncode, error := StreamTurn(translator, env);
      spool := s.spool;
      if !env.cancelledBefore && env.broken.Some? && env.broken.value.WhileStreaming? {
        return Failure(env.broken.value.message);
      }
      var warning := None;
      if translator.completedWork && returncode != 0 && !cancelled {
        warning := Some(Or(error, "cursor-agent exited with code " + Code(returncode) + " after a completed result"));
        error := None;
      }
      assert warning == CrashWarning(env) && error == TurnError(env);
      var room := if env.broken.Some? && env.broken.value.WhileClosing? then Some(env.broken.value.written) else None;
      hide CrashWarning, TurnError, WasCancelled;
      var ok := EmitPending(s.pendingEnds, warning, room);
      if !translator.sawTurnEnd {
        assert spool == s.spool;
        var closing := translator.FlushText();
        closing := closing + [TurnEnded(if cancelled then Cancelled else Failed,
                                        Some(Or(error, "cursor-agent exited with code " + Code(returncode))),
                                        None, None, None)];
        assert closing == ClosingEvents(env);
        ok := Write(closing, room);
      }
      WarnedTells(s.pendingEnds, warning);
      assert ok <==> TurnReturned(env);
      assert spool == FinalSpool(env);
      if !ok {
        return Failure(env.broken.value.message);
      }
      var plumbing := !translator.sawTurnEnd && !cancelled;
      if translator.completedWork {
        return Success(TurnOutcome(0, cancelled, plumbing, None));
      }
      if !translator.sawTurnEnd {
        return Success(TurnOutcome(returncode, cancelled, plumbing, error));
      }
      if s.pendingEnds != [] {
        var last := s.pendingEnds[|s.pendingEnds| - 1].error;
        if last.Some? && last.value != "" {
          error := Some(Or(error, last.value));
        }
      }
      return Success(TurnOutcome(if returncode != 0 then returncode else 1, cancelled, plumbing, error));
    }

    /** persist_post_turn_result: the worktree goes only after result.json holds a commit. */
    method PersistResult(p: Persist) returns (sha: string, error: string)
      modifies this`result, this`worktreeKept
      ensures sha == (if p.writeError.None? then p.sha else "")
      ensures sha == "" ==> error == PersistError(p)
      ensures result == if p.writeError.None? then Some(p.sha) else old(result)
      ensures worktreeKept == (old(worktreeKept) && sha == "")
    {
      if p.writeError.Some? {
        return "", "result handoff write failed: " + p.writeError.value;
      }
      result := Some(p.sha);
      if p.sha != "" {
        worktreeKept := false;
      }
      return p.sha, Or(NonEmpty(p.error), "no result commit");
    }

    /** run_attempt_supervisor: whatever happened, a terminal record is published. */
    method RunSupervisor(env: Env) returns (tried: bool)
      requires spool == [] && result == None && worktreeKept
      modifies this
      ensures spool == FinalSpool(env)
      ensures tried <==> Persists(env)
      ensures exitState == Some(Exit(env))
      ensures exitState.value.cancelled <==>
        TurnReturned(env)
        && (env.cancelledBefore
            || (env.returncode != 0 && env.cancelRequested
                && !exists i :: 0 <= i < |env.lines| && env.lines[i].ResultLine? && env.lines[i].subtype == "success"))
      ensures exitState.value.plumbing <==>
        !TurnReturned(env)
        || (!(exists i :: 0 <= i < |env.lines| && env.lines[i].ResultLine?)
            && !env.cancelledBefore && !(env.returncode != 0 && env.cancelRequested))
      ensures result == if tried && env.persist.writeError.None? then Some(env.persist.sha) else None
      ensures worktreeKept <==> !PersistSucceeds(env)
      ensures !worktreeKept ==> result.Some? && result.value != "" && exitState.value.returncode == 0
    {
      ExitTells(env);
      hide OutcomeOf, TurnSpool, FeedAll, HasSuccess;
      tried := false;
      var outcome := TurnOutcome(127, false, true, Some("local attempt supervisor failed before the turn"));
      match env.startup {
        case NotReady(_, message) =>
          outcome := TurnOutcome(127, false, true, Some("local attempt supervisor failed: " + message));
        case Ready(_) =>
          var turn := RunCursorTurn(env);
          match turn {
            case Success(returned) => outcome := returned;
            case Failure(message) =>
              outcome := TurnOutcome(127, false, true, Some("local attempt supervisor failed: " + message));
          }
      }
      assert outcome == Seen(env);
      var terminal := FindLastTurnEnded(spool);
      var terminalFailed := terminal.Some? && terminal.value.status == Failed;
      SupervisorAgreesWithStream(env);
      if !outcome.cancelled && !outcome.plumbing && !terminalFailed && env.startup.Ready? {
        tried := true;
        var sha, detail := PersistResult(env.persist);
        if sha != "" {
          exitState := Some(ExitState(0, false, false, None));
          return;
        }
        var failure := "persist failed; worktree kept at " + env.startup.worktree + ": " + detail;
        exitState := Some(ExitState(1, false, false, Some(failure)));
        return;
      }
      var error := outcome.error;
      if terminalFailed {
        error := Some(Or(terminal.value.error, Or(outcome.error, "turn_ended status=failed")));
      }
      var worktree := Worktree(env);
      if worktree.Some? {
        error := Some(Or(error, "turn ended without a result") + "; worktree kept at " + worktree.value);
      }
      exitState := Some(ExitState(if outcome.returncode != 0 then outcome.returncode else 1,
                                  outcome.cancelled, outcome.plumbing, error));
    }
  }

  // ---------------------------------------------------------------- translator promises

  function Concat(texts: seq<string>): string {
    if texts == [] then "" else Concat(texts[..|texts| - 1]) + texts[|texts| - 1]
  }

  function AbsorbAll(buffer: string, texts: seq<string>): string {
    if texts == [] then buffer else Absorb(AbsorbAll(buffer, texts[..|texts| - 1]), texts[|texts| - 1])
  }

  /** No delta repeats all the text before it. */
  predicate NoRepeat(deltas: seq<string>) {
    forall i :: 0 <= i < |deltas| && deltas[i] != "" ==> deltas[i] != Concat(deltas[..i])
  }

  lemma {:induction false} DeltasAbsorbed(deltas: seq<string>)
    ensures |AbsorbAll("", deltas)| <= |Concat(deltas)|
    ensures NoRepeat(deltas) ==> AbsorbAll("", deltas) == Concat(deltas)
    ensures !NoRepeat(deltas) ==> |AbsorbAll("", deltas)| < |Concat(deltas)|
    ensures Concat(deltas) != "" ==> AbsorbAll("", deltas) != ""
  {
    if deltas != [] {
      var front, last := deltas[..|deltas| - 1], deltas[|deltas| - 1];
      DeltasAbsorbed(front);
      assert forall i :: 0 <= i < |front| ==> front[i] == deltas[i] && front[..i] == deltas[..i];
      assert NoRepeat(deltas) <==> NoRepeat(front) && (last == "" || last != Concat(front));
    }
  }

  function Said(texts: seq<string>): seq<Line> {
    seq(|texts|, i requires 0 <= i < |texts| => Assistant(texts[i]))
  }

  function Advance(t: Translator, lines: seq<Line>): Translator {
    if lines == [] then t else Translate(Advance(t, lines[..|lines| - 1]), lines[|lines| - 1]).0
  }

  /** Assistant lines change the text buffer and nothing else. */
  lemma {:induction false} SayingAbsorbs(t: Translator, texts: seq<string>)
    ensures Advance(t, Said(texts)) == t.(text := AbsorbAll(t.text, texts))
  {
    if texts != [] {
      var front, last := texts[..|texts| - 1], texts[|texts| - 1];
      SayingAbsorbs(t, front);
      assert Said(texts) == Said(front) + [Assistant(last)];
      assert (Said(front) + [Assistant(last)])[..|front|] == Said(front);
    }
  }

  lemma OntoEmptyBuffer(deltas: seq<string>)
    ensures AbsorbAll("", deltas + [Concat(deltas)]) == Concat(deltas) <==> NoRepeat(deltas)
    ensures Concat(deltas) != "" ==> AbsorbAll("", deltas + [Concat(deltas)]) != ""
  {
    hide Concat, NoRepeat;
    DeltasAbsorbed(deltas);
    var all := deltas + [Concat(deltas)];
    assert all[..|all| - 1] == deltas;
    assert AbsorbAll("", all) == Absorb(AbsorbAll("", deltas), Concat(deltas));
    hide AbsorbAll;
  }

  /** Every delta with text is the text said before. */
  predicate AllEcho(deltas: seq<string>, said: string) {
    forall i :: 0 <= i < |deltas| && deltas[i] != "" ==> deltas[i] == said
  }

  lemma {:induction false} DeltasOntoBuffer(buffer: string, deltas: seq<string>)
    requires buffer != ""
    ensures AllEcho(deltas, buffer) ==> AbsorbAll(buffer, deltas) == buffer
    ensures !AllEcho(deltas, buffer) ==> |AbsorbAll(buffer, deltas)| > |buffer| && Concat(deltas) != ""
    ensures |AbsorbAll(buffer, deltas)| >= |buffer|
  {
    if deltas != [] {
      var front, last := deltas[..|deltas| - 1], deltas[|deltas| - 1];
      DeltasOntoBuffer(buffer, front);
      assert forall i :: 0 <= i < |front| ==> front[i] == deltas[i];
      assert AllEcho(deltas, buffer) <==> AllEcho(front, buffer) && (last == "" || last == buffer);
    }
  }

  lemma OntoFullBuffer(buffer: string, deltas: seq<string>)
    requires buffer != ""
    ensures AbsorbAll(buffer, deltas + [Concat(deltas)]) == buffer + Concat(deltas)
            <==> AllEcho(deltas, buffer) && Concat(deltas) != buffer
    ensures AbsorbAll(buffer, deltas + [Concat(deltas)]) != ""
  {
    hide Concat, AllEcho;
    DeltasOntoBuffer(buffer, deltas);
    var whole := Concat(deltas);
    var all := deltas + [whole];
    assert all[..|all| - 1] == deltas;
    var absorbed := AbsorbAll(buffer, deltas);
    assert AbsorbAll(buffer, all) == Absorb(absorbed, whole);
    hide AbsorbAll;
    assert whole == "" ==> buffer + whole == buffer;
    assert |buffer + whole| == |buffer| + |whole|;
  }

  /** The message is added once to what was said before it: with nothing said, no delta repeats all of the message
      so far; otherwise every delta repeats what was said, and the message as a whole does not. */
  predicate AddedOnce(said: string, deltas: seq<string>) {
    if said == "" then NoRepeat(deltas) else AllEcho(deltas, said) && Concat(deltas) != said
  }

  /** The line ends the message: a tool call starts, or the turn's result arrives. */
  predicate EndsMessage(line: Line) {
    StartsCall(line) || line.ResultLine?
  }

  /** A message streamed as deltas, repeated whole and then ended, after any text still buffered: what is emitted is
      that text followed by the message if and only if the message is added once. */
  lemma MessageIsNotDoubled(t: Translator, deltas: seq<string>, next: Line)
    requires EndsMessage(next)
    ensures var said := Advance(t, Said(deltas + [Concat(deltas)]));
      var text := t.text + Concat(deltas);
      var events := Translate(said, next).1;
      && (said.text == text <==> AddedOnce(t.text, deltas))
      && (text != "" ==> events != [] && (events[0] == AssistantMessage(text) <==> AddedOnce(t.text, deltas)))
  {
    SayingAbsorbs(t, deltas + [Concat(deltas)]);
    if t.text == "" {
      OntoEmptyBuffer(deltas);
      assert t.text + Concat(deltas) == Concat(deltas);
    } else {
      OntoFullBuffer(t.text, deltas);
    }
    hide Advance, AbsorbAll, Concat, NoRepeat, AllEcho, CanonicalTool, Boundary, Said;
  }

  lemma HaHa()
    ensures AbsorbAll("", ["ha", "ha", "haha"]) == "hahaha" && Concat(["ha", "ha"]) == "haha"
  {
    assert ["ha", "ha", "haha"][..2] == ["ha", "ha"];
    assert ["ha", "ha"][..1] == ["ha"];
    assert ["ha"][..0] == [];
    assert AbsorbAll("", ["ha"]) == "ha";
    assert AbsorbAll("", ["ha", "ha"]) == "ha";
    assert Concat(["ha"]) == "ha";
  }

  /** Where it fails: "ha", "ha" and the whole "haha" are emitted as "hahaha". */
  lemma RepeatedDeltaIsLost(next: Line)
    requires EndsMessage(next)
    ensures Concat(["ha", "ha"]) == "haha"
    ensures Translate(Advance(FRESH, Said(["ha", "ha", "haha"])), next).1[..1] == [AssistantMessage("hahaha")]
  {
    hide Advance, AbsorbAll, Concat, CanonicalTool, Boundary, Said;
    HaHa();
    SayingAbsorbs(FRESH, ["ha", "ha", "haha"]);
  }

  lemma TwoMessages()
    ensures AbsorbAll("", ["a", "a", "b", "b"]) == "abb"
    ensures NoRepeat(["a"]) && NoRepeat(["b"]) && Concat(["a"]) == "a" && Concat(["b"]) == "b"
  {
    var texts := ["a", "a", "b", "b"];
    assert texts[..3] == ["a", "a", "b"] && texts[..3][..2] == ["a", "a"] && texts[..2][..1] == ["a"];
    assert ["a"][..0] == [] && ["b"][..0] == [];
    assert AbsorbAll("", ["a"]) == "a";
    assert AbsorbAll("", ["a", "a"]) == "a";
    assert AbsorbAll("", ["a", "a", "b"]) == "ab";
  }

  /** Where it fails between messages: "a" and "b", each streamed and repeated whole with no tool call between them,
      are emitted as "abb", although neither repeats itself. */
  lemma SecondMessageIsDoubled(next: Line)
    requires EndsMessage(next)
    ensures NoRepeat(["a"]) && NoRepeat(["b"]) && Concat(["a"]) == "a" && Concat(["b"]) == "b"
    ensures Translate(Advance(FRESH, Said(["a", "a", "b", "b"])), next).1[..1] == [AssistantMessage("abb")]
  {
    hide Advance, AbsorbAll, Concat, NoRepeat, CanonicalTool, Boundary, Said;
    TwoMessages();
    SayingAbsorbs(FRESH, ["a", "a", "b", "b"]);
  }

  predicate Concerns(line: Line, callId: string) {
    line.ToolCall? && line.key != "" && line.callId == callId && line.subtype in {"started", "completed"}
  }

  lemma {:induction false} OtherCallsLeaveIt(t: Translator, between: seq<Line>, callId: string)
    requires callId in t.calls && forall line :: line in between ==> !Concerns(line, callId)
    ensures callId in Advance(t, between).calls && Advance(t, between).calls[callId] == t.calls[callId]
  {
    if between != [] {
      OtherCallsLeaveIt(t, between[..|between| - 1], callId);
      assert between[|between| - 1] in between;
    }
  }

  /** A completion without arguments, as failed calls have, still names the tool, paths and command of its
      start, whatever the stream says in between about other calls. */
  lemma CompletionKeepsItsStart(t: Translator, start: Line, between: seq<Line>, done: Line)
    requires start.ToolCall? && Concerns(start, start.callId) && start.subtype == "started"
    requires Concerns(done, start.callId) && done.subtype == "completed" && done.args.NoArgs?
    requires forall line :: line in between ==> !Concerns(line, start.callId)
    ensures var (begun, started) := Translate(t, start);
      var (after, completed) := Translate(Advance(begun, between), done);
      var first := started[|started| - 1];
      && |completed| == 1 && completed[0].ToolCompleted? && first.ToolStarted?
      && completed[0].callId == first.callId && completed[0].tool == first.tool
      && completed[0].paths == first.paths && completed[0].command == first.command
      && (completed[0].ok <==> done.outcome.Succeeded?) && (completed[0].ok <==> completed[0].error.None?)
      && start.callId !in after.calls
  {
    hide CanonicalTool;
    OtherCallsLeaveIt(Translate(t, start).0, between, start.callId);
  }
}
