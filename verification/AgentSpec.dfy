/**
 The agent turn loop of src/mua/agent.c as a state machine: one function per callback.  What tools, the
 provider, the disk and the user do arrives as arguments.
 */
module AgentSpec {
  import opened Bytes
  import opened CJsonSpec
  import opened SessionSpec

  const ROLE_ASSISTANT: bytes := [97, 115, 115, 105, 115, 116, 97, 110, 116]
  const ROLE_TOOL: bytes := [116, 111, 111, 108]
  const KEY_CALLS: bytes := [116, 111, 111, 108, 95, 99, 97, 108, 108, 115]
  const KEY_CALL_ID: bytes := [116, 111, 111, 108, 95, 99, 97, 108, 108, 95, 105, 100]
  const KEY_CONTENT: bytes := [99, 111, 110, 116, 101, 110, 116]
  const INTERRUPTED: bytes := [91, 105, 110, 116, 101, 114, 114, 117, 112, 116, 101, 100, 93]

  // ----- messages -----

  /** The items of a message's tool_calls array; none when it has no such array. */
  function CallsOf(v: Json): seq<Json> {
    if !v.Object? then []
    else match Lookup(v.members, KEY_CALLS)
      case Some(Array(items)) => items
      case _ => []
  }

  function CallId(call: Json): Option<bytes> { GetString(call, KEY_ID) }

  /** The id an answer to the call carries; empty when the call has none. */
  function AnswerId(call: Json): bytes {
    if CallId(call).Some? then CallId(call).value else []
  }

  predicate IsAssistant(v: Json) { GetString(v, KEY_ROLE) == Some(ROLE_ASSISTANT) }

  function ToolMessage(id: bytes, content: bytes): Json {
    Object([Member(KEY_ROLE, String(ROLE_TOOL)), Member(KEY_CALL_ID, String(id)), Member(KEY_CONTENT, String(content))])
  }

  // ----- the turn -----

  datatype Ending = TurnDone | TurnFailed | TurnInterrupted | TurnStepCap | TurnContextLimit

  /**
   AgentTurn and the session it writes to.  `stream` is the field; `live` says whether the provider still
   owes this turn a terminal callback.  `endings`, `requests`, `ran` and `lateRuns` record what happened: the
   calls of on_finish, the requests issued, the tools started, and those started after a cancel.
   */
  datatype Turn = Turn(
    log: Log, stepCap: nat, contextLength: int, contextPct: int, warnPct: int,
    step: nat, tokens: int, warned: bool,
    stream: bool, live: bool, exec: bool, timer: bool,
    calls: seq<Json>, toolIndex: nat,
    cancelRequested: bool, canceling: bool, failing: bool, finished: bool,
    endings: seq<Ending>, requests: nat, ran: nat, lateRuns: nat)

  /** How much of each record the disk takes, by the number of messages before it. */
  type Disk = nat -> int

  function Taken(disk: Disk, log: Log, total: nat): (n: int)
    ensures -1 <= n <= total
  {
    var n := disk(|log.messages|);
    if n < -1 then -1 else if n > total then total else n
  }

  /** session_append on this disk. */
  function Store(log: Log, msg: Json, disk: Disk): (Log, bool) {
    Append(log, msg, Taken(disk, log, |Record(log, PrintedLine(msg))|))
  }

  /** finish_turn: on_finish fires once, and the timer is closed. */
  function FinishTurn(t: Turn, ending: Ending): Turn {
    if t.finished then t else t.(finished := true, endings := t.endings + [ending], timer := false)
  }

  /** What the handling of tool calls never touches. */
  predicate SameRound(t: Turn, r: Turn) {
    && r.calls == t.calls && r.step == t.step && r.stepCap == t.stepCap && r.requests == t.requests
    && r.timer == t.timer && r.stream == t.stream && r.live == t.live && r.finished == t.finished
  }

  /** agent_turn_cancel, up to what the provider and the tool do about it. */
  function Cancel(t: Turn): Turn {
    if t.finished then t
    else if t.stream then t.(cancelRequested := true)
    else t.(canceling := true)
  }

  function CancelIf(t: Turn, cancel: bool): (r: Turn)
    ensures SameRound(t, r) && r.toolIndex == t.toolIndex && r.exec == t.exec && r.failing == t.failing
  {
    if cancel then Cancel(t) else t
  }

  /** append_tool_message for the current call. */
  function AnswerCall(t: Turn, content: bytes, disk: Disk): (r: (Turn, bool))
    requires t.toolIndex < |t.calls|
    ensures r.0 == t.(log := r.0.log)
  {
    hide Store;
    var (log, ok) := Store(t.log, ToolMessage(AnswerId(t.calls[t.toolIndex]), content), disk);
    (t.(log := log), ok)
  }

  /** tool_completed; the result callback may cancel the turn. */
  function ToolCompleted(t: Turn, content: bytes, cancel: bool, disk: Disk): (r: Turn)
    requires t.toolIndex < |t.calls|
    ensures SameRound(t, r) && r.exec == t.exec && t.toolIndex <= r.toolIndex <= |r.calls|
    ensures r.failing || r.toolIndex == t.toolIndex + 1
  {
    hide Store, AnswerCall;
    var (after, ok) := AnswerCall(t, content, disk);
    if !ok then after.(failing := true)
    else
      var heard := CancelIf(after, cancel);
      heard.(toolIndex := heard.toolIndex + 1)
  }

  /**
   What becomes of one call: it names no tool or its arguments do not parse; the gate refuses it; it runs and
   completes at once; or it runs on.  The gate and the result callback may cancel the turn.
   */
  datatype ToolStep =
    | Rejected(content: bytes, cancelAfter: bool)
    | Refused(content: bytes, cancelInGate: bool, cancelAfter: bool)
    | RunsInline(content: bytes, cancelInGate: bool, cancelAfter: bool)
    | RunsOn(cancelInGate: bool)

  /** A tool starts: counted, and counted as late if the turn is being canceled. */
  function Ran(t: Turn): (r: Turn)
    ensures SameRound(t, r) && r.toolIndex == t.toolIndex && r.exec == t.exec && r.failing == t.failing
  {
    t.(ran := t.ran + 1, lateRuns := t.lateRuns + if t.canceling then 1 else 0)
  }

  /** start_tool and its inline completion; `exec` is set when the tool runs on. */
  function StartTool(t: Turn, s: ToolStep, disk: Disk): (r: Turn)
    requires t.toolIndex < |t.calls|
    ensures SameRound(t, r) && t.toolIndex <= r.toolIndex <= |r.calls|
    ensures !s.RunsOn? ==> r.failing || r.toolIndex == t.toolIndex + 1
    ensures r.exec == (t.exec || s.RunsOn?) && (s.RunsOn? ==> r.toolIndex == t.toolIndex && r.failing == t.failing)
  {
    hide Store, AnswerCall, ToolCompleted, CancelIf, Ran;
    var gated := if s.Rejected? then t else CancelIf(t, s.cancelInGate);
    var begun := if s.RunsInline? || s.RunsOn? then Ran(gated) else gated;
    if s.RunsOn? then begun.(exec := true) else ToolCompleted(begun, s.content, s.cancelAfter, disk)
  }

  /** The loop of finish_with_synthetics. */
  function Synthesize(t: Turn, disk: Disk): (r: Turn)
    requires t.toolIndex <= |t.calls|
    ensures r == t.(log := r.log, toolIndex := r.toolIndex) && r.toolIndex <= |r.calls|
    decreases |t.calls| - t.toolIndex
  {
    hide Store, AnswerCall;
    if t.toolIndex == |t.calls| then t
    else
      var (after, ok) := AnswerCall(t, INTERRUPTED, disk);
      if ok then Synthesize(after.(toolIndex := after.toolIndex + 1), disk) else after
  }

  /** The tokens used have reached that percentage of a context window of known size. */
  predicate Reached(t: Turn, percent: int) {
    t.contextLength > 0 && t.tokens > 0 && t.tokens >= t.contextLength * percent / 100
  }

  /** next_step. */
  function NextStep(t: Turn, timerStarts: bool): Turn {
    var s := t.(step := t.step + 1);
    if s.step >= s.stepCap then FinishTurn(s, TurnStepCap)
    else if Reached(s, s.contextPct) then FinishTurn(s, TurnContextLimit)
    else if timerStarts then s.(timer := true)
    else FinishTurn(s, TurnFailed)
  }

  /** The loop of drive_tools.  The script says what becomes of the calls; behind its end they run on. */
  function Drive(t: Turn, script: seq<ToolStep>, disk: Disk): (r: Turn)
    requires t.toolIndex <= |t.calls| && !t.exec
    ensures SameRound(t, r) && t.toolIndex <= r.toolIndex <= |r.calls|
    ensures if r.exec then r.toolIndex < |r.calls| && !r.failing
            else r.toolIndex == |r.calls| || r.canceling || r.failing
    decreases |script|
  {
    hide Store, AnswerCall, ToolCompleted, StartTool;
    if t.toolIndex == |t.calls| || t.canceling || t.failing then t
    else
      var s := if script == [] then RunsOn(false) else script[0];
      var after := StartTool(t, s, disk);
      if script == [] || after.exec then after else Drive(after, script[1..], disk)
  }

  /** drive_tools. */
  function DriveTools(t: Turn, script: seq<ToolStep>, timerStarts: bool, disk: Disk): Turn
    requires t.toolIndex <= |t.calls| && !t.exec
  {
    var d := Drive(t, script, disk);
    if d.exec then d
    else if d.failing then FinishTurn(d, TurnFailed)
    else if d.canceling then FinishTurn(Synthesize(d, disk), TurnInterrupted)
    else NextStep(d, timerStarts)
  }

  /** maybe_warn_context: one notice a turn; its callback may cancel. */
  function WarnContext(t: Turn, cancel: bool): (r: Turn)
    ensures SameRound(t, r) && r.exec == t.exec && r.toolIndex == t.toolIndex && r.log == t.log
        && r.failing == t.failing
  {
    hide Reached;
    if t.warned || t.warnPct <= 0 || !Reached(t, t.warnPct) then t else CancelIf(t.(warned := true), cancel)
  }

  /** provider_on_error. */
  function StreamFailed(t: Turn): Turn {
    var s := t.(stream := false, live := false);
    FinishTurn(s, if s.cancelRequested then TurnInterrupted else TurnFailed)
  }

  /** The end of provider_on_done, for a stored message with calls. */
  function RoundOpened(t: Turn, message: Json, script: seq<ToolStep>, timerStarts: bool, disk: Disk): Turn
    requires !t.exec
  {
    hide DriveTools, Synthesize;
    var open := t.(calls := CallsOf(message), toolIndex := 0);
    if open.cancelRequested then FinishTurn(Synthesize(open.(canceling := true), disk), TurnInterrupted)
    else DriveTools(open, script, timerStarts, disk)
  }

  /** The middle of provider_on_done: the message is stored, or the turn fails. */
  function MessageLanded(t: Turn, message: Json, script: seq<ToolStep>, timerStarts: bool, disk: Disk): Turn
    requires !t.exec
  {
    hide Store, RoundOpened, IsMessage;
    var (log, ok) := Store(t.log, message, disk);
    var a := t.(log := log);
    if !ok then FinishTurn(a, TurnFailed)
    else if CallsOf(message) == [] then FinishTurn(a, TurnDone)
    else RoundOpened(a, message, script, timerStarts, disk)
  }

  /** provider_on_done. */
  function StreamCompleted(t: Turn, message: Json, total: int, cancel: bool, script: seq<ToolStep>, timerStarts: bool,
      disk: Disk): Turn
    requires !t.exec
  {
    hide MessageLanded, WarnContext;
    var s := t.(stream := false, live := false, tokens := if total > 0 then total else t.tokens);
    MessageLanded(WarnContext(s, cancel), message, script, timerStarts, disk)
  }

  /** What issuing a request comes to: refused outright, under way, or failed before openrouter_stream returns. */
  datatype Request = NotIssued | Streaming | FailsInline

  /** issue_request, and what becomes of a turn whose request fails. */
  function RequestIssued(t: Turn, request: Request): Turn {
    var r := t.(requests := t.requests + 1);
    match request
    case NotIssued => FinishTurn(r, TurnFailed)
    case Streaming => r.(stream := true, live := true)
    case FailsInline => StreamFailed(r.(live := true)).(stream := true)
  }

  /** step_timer_cb. */
  function TimerFired(t: Turn, request: Request): Turn {
    var s := t.(timer := false);
    if s.canceling || s.cancelRequested then FinishTurn(s, TurnInterrupted)
    else RequestIssued(s, request)
  }

  /** agent_tool_done for a tool that ran on. */
  function ToolDone(t: Turn, content: bytes, cancel: bool, script: seq<ToolStep>, timerStarts: bool, disk: Disk): Turn
    requires t.finished || t.toolIndex < |t.calls|
  {
    hide Store, AnswerCall, ToolCompleted, DriveTools;
    var s := t.(exec := false);
    if s.finished then s else DriveTools(ToolCompleted(s, content, cancel, disk), script, timerStarts, disk)
  }

  datatype Event =
    | TimerEvent(request: Request)
    | TextEvent(cancel: bool)
    | DoneEvent(message: Json, total: int, cancel: bool, script: seq<ToolStep>, timerStarts: bool)
    | ErrorEvent
    | ToolEvent(content: bytes, cancel: bool, script: seq<ToolStep>, timerStarts: bool)
    | CancelEvent(failsInline: bool)

  /** Which callbacks can fire: an armed timer, a live stream, a running tool; a cancel at any time. */
  predicate Enabled(t: Turn, e: Event) {
    match e
    case TimerEvent(_) => t.timer
    case TextEvent(_) => t.live
    case DoneEvent(message, _, _, _, _) => t.live && IsAssistant(message)
    case ErrorEvent => t.live
    case ToolEvent(_, _, _, _) => t.exec
    case CancelEvent(_) => true
  }

  /** One callback.  A cancel that finds the provider between attempts makes it report its error at once. */
  function Next(t: Turn, e: Event, disk: Disk): Turn
    requires e.DoneEvent? ==> !t.exec
    requires e.ToolEvent? ==> t.finished || t.toolIndex < |t.calls|
  {
    match e
    case TimerEvent(request) => TimerFired(t, request)
    case TextEvent(cancel) => CancelIf(t, cancel)
    case DoneEvent(message, total, cancel, script, starts) => StreamCompleted(t, message, total, cancel, script,
        starts, disk)
    case ErrorEvent => StreamFailed(t)
    case ToolEvent(content, cancel, script, starts) => ToolDone(t, content, cancel, script, starts, disk)
    case CancelEvent(inline) =>
      var c := Cancel(t);
      if inline && !t.finished && t.stream && t.live && !t.cancelRequested then StreamFailed(c) else c
  }

  /** agent_turn_start, once the user's message is stored. */
  function Started(log: Log, stepCap: nat, contextLength: int, contextPct: int, warnPct: int): Turn {
    Turn(log, stepCap, contextLength, contextPct, warnPct, 0, 0, false, false, false, false, true, [], 0,
         false, false, false, false, [], 0, 0, 0)
  }
}
