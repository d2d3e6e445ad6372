/** What every run of the agent turn loop keeps. */
module AgentLaws {
  import opened Bytes
  import opened CJsonSpec
  import opened SessionSpec
  import opened AgentSpec

  // ----- the shape of a conversation -----

  /** A message as the provider's protocol sees it: a round of tool calls, an answer to one, or anything else. */
  datatype View = Plain | Round(ids: seq<bytes>) | Answer(id: Option<bytes>)

  function AnswerIds(calls: seq<Json>): (ids: seq<bytes>)
    ensures |ids| == |calls| && forall i :: 0 <= i < |ids| ==> ids[i] == AnswerId(calls[i])
  {
    seq(|calls|, i requires 0 <= i < |calls| => AnswerId(calls[i]))
  }

  function ViewOf(v: Json): View {
    if IsAssistant(v) then if CallsOf(v) == [] then Plain else Round(AnswerIds(CallsOf(v)))
    else if GetString(v, KEY_ROLE) == Some(ROLE_TOOL) then
      Answer(GetString(v, KEY_CALL_ID))
    else Plain
  }

  /**
   Complete: every round is followed at once by one answer to each of its calls, in order.  Open: so far, but
   only the first `answered` calls of the last round are answered.  Broken: neither, for good.
   */
  datatype Shape = Complete | Open(ids: seq<bytes>, answered: nat) | Broken

  function Extend(s: Shape, v: View): Shape {
    match s
    case Broken => Broken
    case Complete =>
      (match v
       case Plain => Complete
       case Round(ids) => Open(ids, 0)
       case Answer(_) => Broken)
    case Open(ids, k) =>
      if v.Answer? && k < |ids| && v.id == Some(ids[k]) then (if k + 1 == |ids| then Complete else Open(ids, k + 1))
      else Broken
  }

  function ShapeOf(messages: seq<Json>): Shape {
    if messages == [] then Complete
    else Extend(ShapeOf(messages[..|messages| - 1]), ViewOf(messages[|messages| - 1]))
  }

  lemma ShapeSnoc(messages: seq<Json>, v: Json)
    ensures ShapeOf(messages + [v]) == Extend(ShapeOf(messages), ViewOf(v))
  {
    hide Extend, ViewOf;
    var all := messages + [v];
    assert all[..|all| - 1] == messages && all[|all| - 1] == v;
  }

  /** The shape while the calls of a round are being answered. */
  function RoundShape(calls: seq<Json>, answered: nat): Shape {
    if answered < |calls| then Open(AnswerIds(calls), answered) else Complete
  }

  lemma ToolMessageView(id: bytes, content: bytes)
    ensures ViewOf(ToolMessage(id, content)) == Answer(Some(id)) && IsMessage(ToolMessage(id, content))
  {
    var ms := ToolMessage(id, content).members;
    assert Lookup(ms, KEY_ROLE) == Some(String(ROLE_TOOL));
    assert Lookup(ms[1..], KEY_CALL_ID) == Some(String(id));
    assert Lookup(ms, KEY_CALL_ID) == Some(String(id));
  }

  // ----- storing messages -----

  /** No append can succeed any more. */
  predicate Closed(log: Log) { log.poisoned || |log.messages| >= MAX_MESSAGES }

  predicate TooLong(msg: Json) { |PrintedLine(msg)| > MAX_LINE }

  lemma StoreEffect(log: Log, msg: Json, disk: Disk)
    requires IsMessage(msg)
    ensures var (after, ok) := Store(log, msg, disk);
            && after.messages == log.messages + (if ok then [msg] else [])
            && (ok ==> !Closed(log) && !TooLong(msg))
            && (!ok ==> Closed(after) || (TooLong(msg) && after == log))
            && (Closed(log) ==> Closed(after) && !ok)
            && (TooLong(msg) ==> !ok && after == log)
  {
    hide PrintedLine, IsMessage;
    assert log.messages + [] == log.messages;
  }

  /** Answering the current call either extends the round by one answer or leaves the conversation alone. */
  lemma AnswerEffect(t: Turn, content: bytes, disk: Disk)
    requires t.toolIndex < |t.calls| && ShapeOf(t.log.messages) == RoundShape(t.calls, t.toolIndex)
    ensures var (after, ok) := AnswerCall(t, content, disk);
            && ShapeOf(after.log.messages) == RoundShape(t.calls, t.toolIndex + if ok then 1 else 0)
            && (!ok ==> Closed(after.log) || TooLong(ToolMessage(AnswerId(t.calls[t.toolIndex]), content)))
  {
    hide Store, ToolMessage, ShapeOf, AnswerId, ViewOf, IsMessage;
    var msg := ToolMessage(AnswerId(t.calls[t.toolIndex]), content);
    ToolMessageView(AnswerId(t.calls[t.toolIndex]), content);
    StoreEffect(t.log, msg, disk);
    ShapeSnoc(t.log.messages, msg);
    assert t.log.messages + [] == t.log.messages;
  }

  // ----- the invariant -----

  /** What justifies how a turn ended. */
  predicate Justified(t: Turn, e: Ending) {
    match e
    case TurnDone => t.log.messages != [] && ViewOf(t.log.messages[|t.log.messages| - 1]) == Plain
        && t.toolIndex == |t.calls|
    case TurnFailed => true
    case TurnInterrupted => t.cancelRequested || t.canceling
    case TurnStepCap => t.step >= t.stepCap && t.toolIndex == |t.calls|
    case TurnContextLimit => Reached(t, t.contextPct) && t.toolIndex == |t.calls|
  }

  /** What holds at every point, on and off the stack. */
  predicate Sound(t: Turn) {
    && t.toolIndex <= |t.calls|
    && ShapeOf(t.log.messages) == RoundShape(t.calls, t.toolIndex)
    && t.requests <= t.stepCap
    && t.lateRuns <= 1 && (t.lateRuns == 1 ==> t.canceling)
    && |t.endings| == (if t.finished then 1 else 0)
  }

  /** Between callbacks, while the turn lasts: exactly one thing can wake it up, and it fits what the turn is doing. */
  predicate Waiting(t: Turn) {
    && t.stream == t.live
    && (t.timer || t.live || t.exec) && !(t.timer && t.live) && !(t.timer && t.exec) && !(t.live && t.exec)
    && (t.exec <==> t.toolIndex < |t.calls|)
    && !t.failing && (t.cancelRequested ==> t.live) && (t.canceling ==> !t.live)
    && t.step < t.stepCap && t.requests == t.step + if t.timer then 0 else 1
  }

  /** After the end: on_finish has been called once, and nothing is left that could call back. */
  predicate Over(t: Turn) {
    !t.live && !t.exec && !t.timer && |t.endings| == 1 && Justified(t, t.endings[0])
  }

  predicate Inv(t: Turn) {
    Sound(t) && if t.finished then Over(t) else Waiting(t)
  }

  /** Inside drive_tools: the turn lasts and nothing is pending. */
  predicate Driving(t: Turn) {
    && Sound(t) && !t.finished
    && !t.stream && !t.live && !t.timer && !t.exec && !t.cancelRequested
    && t.step < t.stepCap && t.requests == t.step + 1
  }

  lemma StartIsSound(log: Log, stepCap: nat, contextLength: int, contextPct: int, warnPct: int)
    requires ShapeOf(log.messages) == Complete && stepCap > 0
    ensures Inv(Started(log, stepCap, contextLength, contextPct, warnPct))
  {
  }

  lemma ToolCompletedKeeps(t: Turn, content: bytes, cancel: bool, disk: Disk)
    requires Driving(t) && t.toolIndex < |t.calls|
    ensures Driving(ToolCompleted(t, content, cancel, disk))
  {
    hide AnswerCall, ShapeOf, RoundShape;
    AnswerEffect(t, content, disk);
  }

  /** One turn of drive_tools' loop. */
  lemma StartToolKeeps(t: Turn, s: ToolStep, disk: Disk)
    requires Driving(t) && t.toolIndex < |t.calls| && !t.canceling
    ensures var r := StartTool(t, s, disk); Driving(r.(exec := false)) && r.exec == s.RunsOn?
  {
    hide ToolCompleted, ShapeOf, RoundShape;
    if !s.RunsOn? {
      var gated := if s.Rejected? then t else CancelIf(t, s.cancelInGate);
      ToolCompletedKeeps(if s.RunsInline? then Ran(gated) else gated, s.content, s.cancelAfter, disk);
    }
  }

  lemma {:induction false} DriveKeeps(t: Turn, script: seq<ToolStep>, disk: Disk)
    requires Driving(t)
    ensures Driving(Drive(t, script, disk).(exec := false))
    decreases |script|
  {
    hide StartTool, Sound;
    if t.toolIndex < |t.calls| && !t.canceling && !t.failing {
      var s := if script == [] then RunsOn(false) else script[0];
      StartToolKeeps(t, s, disk);
      var after := StartTool(t, s, disk);
      if script != [] && !after.exec {
        assert after.(exec := false) == after;
        DriveKeeps(after, script[1..], disk);
      }
    }
  }

  lemma {:induction false} SynthesizeKeeps(t: Turn, disk: Disk)
    requires Sound(t)
    ensures Sound(Synthesize(t, disk))
    decreases |t.calls| - t.toolIndex
  {
    hide AnswerCall, ShapeOf, RoundShape;
    if t.toolIndex < |t.calls| {
      AnswerEffect(t, INTERRUPTED, disk);
      var (after, ok) := AnswerCall(t, INTERRUPTED, disk);
      if ok { SynthesizeKeeps(after.(toolIndex := after.toolIndex + 1), disk); }
    }
  }

  /** drive_tools leaves a turn that is over, or that waits for the tool that runs on or for the step timer. */
  lemma DriveToolsKeeps(t: Turn, script: seq<ToolStep>, starts: bool, disk: Disk)
    requires Driving(t)
    ensures Inv(DriveTools(t, script, starts, disk))
  {
    hide Drive, Synthesize, ShapeOf, RoundShape;
    DriveKeeps(t, script, disk);
    var d := Drive(t, script, disk);
    if !d.exec {
      assert d.(exec := false) == d;
      if !d.failing && d.canceling { SynthesizeKeeps(d, disk); }
    }
  }

  /** The message a stream ends with, stored: a round opens, or the conversation stays complete. */
  lemma MessageEffect(log: Log, message: Json, disk: Disk)
    requires IsAssistant(message) && ShapeOf(log.messages) == Complete
    ensures var (after, ok) := Store(log, message, disk);
            && ShapeOf(after.messages) == (if ok then RoundShape(CallsOf(message), 0) else Complete)
            && (ok ==> after.messages != [] && after.messages[|after.messages| - 1] == message)
            && (ok && CallsOf(message) == [] ==> ViewOf(message) == Plain)
  {
    hide Store, CallsOf, GetString;
    StoreEffect(log, message, disk);
    ShapeSnoc(log.messages, message);
    assert log.messages + [] == log.messages;
  }

  /** provider_on_done once the stream is gone: nothing is pending and no call is open. */
  predicate Idle(t: Turn) {
    && Sound(t) && !t.finished && t.toolIndex == |t.calls|
    && !t.stream && !t.live && !t.timer && !t.exec
    && t.step < t.stepCap && t.requests == t.step + 1
  }

  lemma StreamEnds(t: Turn, total: int, cancel: bool)
    requires Inv(t) && t.live
    ensures var s := t.(stream := false, live := false, tokens := if total > 0 then total else t.tokens);
            var w := WarnContext(s, cancel);
            !s.exec && Idle(w) && w.log == t.log && !w.failing
  {
    hide ShapeOf, RoundShape;
  }

  lemma MessageLands(w: Turn, message: Json, disk: Disk)
    requires Idle(w) && IsAssistant(message)
    ensures var (log, ok) := Store(w.log, message, disk);
            && (!ok ==> Inv(FinishTurn(w.(log := log), TurnFailed)))
            && (ok && CallsOf(message) == [] ==> Inv(FinishTurn(w.(log := log), TurnDone)))
            && (ok && CallsOf(message) != [] ==> Sound(w.(log := log, calls := CallsOf(message), toolIndex := 0)))
  {
    hide Store, ShapeOf, CallsOf, ViewOf, IsAssistant;
    MessageEffect(w.log, message, disk);
  }

  lemma RoundOpenedKeeps(a: Turn, message: Json, script: seq<ToolStep>, starts: bool, disk: Disk)
    requires !a.finished && !a.stream && !a.live && !a.timer && !a.exec && a.step < a.stepCap
        && a.requests == a.step + 1
    requires Sound(a.(calls := CallsOf(message), toolIndex := 0))
    ensures Inv(RoundOpened(a, message, script, starts, disk))
  {
    hide DriveTools, Synthesize, ShapeOf, RoundShape, CallsOf;
    var open := a.(calls := CallsOf(message), toolIndex := 0);
    if open.cancelRequested {
      SynthesizeKeeps(open.(canceling := true), disk);
    } else {
      DriveToolsKeeps(open, script, starts, disk);
    }
  }

  lemma MessageLandedKeeps(w: Turn, message: Json, script: seq<ToolStep>, starts: bool, disk: Disk)
    requires Idle(w) && IsAssistant(message)
    ensures Inv(MessageLanded(w, message, script, starts, disk))
  {
    hide Store, RoundOpened, ShapeOf, RoundShape, CallsOf, IsAssistant, Inv, Sound, FinishTurn;
    MessageLands(w, message, disk);
    var (log, ok) := Store(w.log, message, disk);
    if ok && CallsOf(message) != [] {
      RoundOpenedKeeps(w.(log := log), message, script, starts, disk);
    }
  }

  lemma StreamCompletedKeeps(t: Turn, message: Json, total: int, cancel: bool, script: seq<ToolStep>, starts: bool,
      disk: Disk)
    requires Inv(t) && t.live && IsAssistant(message)
    ensures Inv(StreamCompleted(t, message, total, cancel, script, starts, disk))
  {
    hide MessageLanded, WarnContext, IsAssistant, Inv, Idle;
    StreamEnds(t, total, cancel);
    var s := t.(stream := false, live := false, tokens := if total > 0 then total else t.tokens);
    MessageLandedKeeps(WarnContext(s, cancel), message, script, starts, disk);
  }

  /** Every callback that can fire keeps the invariant. */
  lemma EveryStepKeeps(t: Turn, e: Event, disk: Disk)
    requires Inv(t) && Enabled(t, e)
    ensures Inv(Next(t, e, disk))
  {
    hide ShapeOf, StreamCompleted, DriveTools, ToolCompleted, IsAssistant;
    match e
    case DoneEvent(message, total, cancel, script, starts) =>
      StreamCompletedKeeps(t, message, total, cancel, script, starts, disk);
    case ToolEvent(content, cancel, script, starts) =>
      var s := t.(exec := false);
      ToolCompletedKeeps(s, content, cancel, disk);
      DriveToolsKeeps(ToolCompleted(s, content, cancel, disk), script, starts, disk);
    case TimerEvent(_) =>
    case TextEvent(_) =>
    case ErrorEvent =>
    case CancelEvent(_) =>
  }

  lemma EnabledFits(t: Turn, e: Event)
    requires Inv(t) && Enabled(t, e)
    ensures e.DoneEvent? ==> !t.exec
    ensures e.ToolEvent? ==> t.finished || t.toolIndex < |t.calls|
  {
    hide ShapeOf, CallsOf;
  }

  // ----- whole runs -----

  predicate PossibleRun(t: Turn, events: seq<Event>, disk: Disk)
    requires Inv(t)
    decreases |events|
  {
    events == []
    || (Enabled(t, events[0]) && (EveryStepKeeps(t, events[0], disk);
            PossibleRun(Next(t, events[0], disk), events[1..], disk)))
  }

  function AfterRun(t: Turn, events: seq<Event>, disk: Disk): Turn
    requires Inv(t) && PossibleRun(t, events, disk)
    decreases |events|
  {
    if events == [] then t
    else EveryStepKeeps(t, events[0], disk); AfterRun(Next(t, events[0], disk), events[1..], disk)
  }

  /**
   Over every run of every turn: the conversation never breaks the protocol's shape, a tool that is open is
   open because it runs or because the turn is over, on_finish is called at most once, an unfinished turn
   has exactly one thing that can wake it up, at most `stepCap` requests are issued, and at most one tool starts
   after a cancel.
   */
  lemma {:induction false} EveryRunKeeps(t: Turn, events: seq<Event>, disk: Disk)
    requires Inv(t) && PossibleRun(t, events, disk)
    ensures var r := AfterRun(t, events, disk);
            && Inv(r)
            && ShapeOf(r.log.messages) == RoundShape(r.calls, r.toolIndex)
            && |r.endings| == (if r.finished then 1 else 0)
            && (!r.finished ==> (if r.timer then 1 else 0) + (if r.live then 1 else 0) + (if r.exec then 1 else 0) == 1)
            && (r.finished ==> !r.timer && !r.live && !r.exec)
            && r.requests <= r.stepCap && r.lateRuns <= 1
    decreases |events|
  {
    hide ShapeOf, Next, Justified;
    if events != [] {
      EveryStepKeeps(t, events[0], disk);
      EveryRunKeeps(Next(t, events[0], disk), events[1..], disk);
    }
  }

  predicate Canceled(t: Turn) { t.cancelRequested || t.canceling }

  /** Nothing undoes a cancel, and a canceled turn issues no request and starts no tool. */
  lemma CanceledStaysQuiet(t: Turn, e: Event, disk: Disk)
    requires Inv(t) && Enabled(t, e) && Canceled(t)
    ensures var r := Next(t, e, disk); Canceled(r) && r.requests == t.requests && r.ran == t.ran
    ensures t.finished ==> Next(t, e, disk).endings == t.endings
  {
    hide ShapeOf, RoundShape, Justified, IsAssistant, StreamCompleted, ToolDone;
    match e
    case DoneEvent(message, total, cancel, script, starts) =>
      CanceledDone(t, message, total, cancel, script, starts, disk);
    case ToolEvent(content, cancel, script, starts) =>
      CanceledTool(t, content, cancel, script, starts, disk);
    case TimerEvent(_) =>
    case TextEvent(_) =>
    case ErrorEvent =>
    case CancelEvent(_) =>
  }

  lemma CanceledDone(t: Turn, message: Json, total: int, cancel: bool, script: seq<ToolStep>, starts: bool, disk: Disk)
    requires Inv(t) && t.live && !t.finished && Canceled(t)
    ensures var r := StreamCompleted(t, message, total, cancel, script, starts, disk);
      Canceled(r) && r.requests == t.requests && r.ran == t.ran
  {
    hide ShapeOf, RoundShape, MessageLanded, Reached;
    var s := t.(stream := false, live := false, tokens := if total > 0 then total else t.tokens);
    CanceledLanded(WarnContext(s, cancel), message, script, starts, disk);
  }

  lemma CanceledLanded(w: Turn, message: Json, script: seq<ToolStep>, starts: bool, disk: Disk)
    requires w.cancelRequested && !w.exec
    ensures var r := MessageLanded(w, message, script, starts, disk);
      Canceled(r) && r.requests == w.requests && r.ran == w.ran
  {
    hide Store, CallsOf, RoundOpened;
    CanceledRound(w.(log := Store(w.log, message, disk).0), message, script, starts, disk);
  }

  lemma CanceledRound(a: Turn, message: Json, script: seq<ToolStep>, starts: bool, disk: Disk)
    requires a.cancelRequested && !a.exec
    ensures var r := RoundOpened(a, message, script, starts, disk);
      Canceled(r) && r.requests == a.requests && r.ran == a.ran
  {
    hide CallsOf, Synthesize, DriveTools;
  }

  lemma CanceledTool(t: Turn, content: bytes, cancel: bool, script: seq<ToolStep>, starts: bool, disk: Disk)
    requires Inv(t) && t.exec && !t.finished && Canceled(t)
    ensures var r := ToolDone(t, content, cancel, script, starts, disk);
      Canceled(r) && r.requests == t.requests && r.ran == t.ran
  {
    hide AnswerCall, ShapeOf, RoundShape, Synthesize;
  }

  // ----- progress -----

  /** Lexicographic order on what is left: rounds, then the phase of the round, then unanswered calls. */
  predicate Less(a: (int, int, int), b: (int, int, int)) {
    a.0 < b.0 || (a.0 == b.0 && (a.1 < b.1 || (a.1 == b.1 && a.2 < b.2)))
  }

  function Rank(t: Turn): (int, int, int) {
    (if t.finished then -1 else t.stepCap - t.step,
     if t.timer then 2 else if t.live then 1 else 0,
     if t.exec then |t.calls| - t.toolIndex else 0)
  }

  /** The turn has ended, waits for a tool of the same step, or has the next step's timer armed. */
  predicate Moved(t: Turn, r: Turn) {
    || r.finished
    || (r.exec && !r.timer && !r.live && r.step == t.step && r.stepCap == t.stepCap)
    || (r.timer && r.step == t.step + 1 && r.stepCap == t.stepCap)
  }

  lemma DriveToolsMoves(t: Turn, script: seq<ToolStep>, starts: bool, disk: Disk)
    requires t.toolIndex <= |t.calls| && !t.exec && !t.timer && !t.live && !t.finished
    ensures var r := DriveTools(t, script, starts, disk);
            Moved(t, r) && (!r.finished && r.exec ==> !r.timer && r.calls == t.calls && r.toolIndex >= t.toolIndex)
  {
    hide Drive, Synthesize, Justified;
  }

  lemma ToolEventGoesOn(t: Turn, content: bytes, cancel: bool, script: seq<ToolStep>, starts: bool, disk: Disk)
    requires Inv(t) && t.exec && !t.finished
    ensures Less(Rank(ToolDone(t, content, cancel, script, starts, disk)), Rank(t))
  {
    hide Drive, Synthesize, ShapeOf, RoundShape, Justified, ToolCompleted, DriveTools;
    var s := ToolCompleted(t.(exec := false), content, cancel, disk);
    DriveToolsMoves(s, script, starts, disk);
    if s.failing { FailingEnds(s, script, starts, disk); }
  }

  lemma FailingEnds(t: Turn, script: seq<ToolStep>, starts: bool, disk: Disk)
    requires t.toolIndex <= |t.calls| && !t.exec && t.failing
    ensures DriveTools(t, script, starts, disk) == FinishTurn(t, TurnFailed)
  {
    hide StartTool;
  }

  lemma MessageLandedMoves(t: Turn, message: Json, script: seq<ToolStep>, starts: bool, disk: Disk)
    requires !t.exec && !t.timer && !t.live && !t.finished
    ensures Moved(t, MessageLanded(t, message, script, starts, disk))
  {
    hide Store, Synthesize, DriveTools, CallsOf;
    var (log, ok) := Store(t.log, message, disk);
    if ok && CallsOf(message) != [] && !t.cancelRequested {
      DriveToolsMoves(t.(log := log, calls := CallsOf(message), toolIndex := 0), script, starts, disk);
    }
  }

  lemma DoneEventGoesOn(t: Turn, message: Json, total: int, cancel: bool, script: seq<ToolStep>, starts: bool,
      disk: Disk)
    requires Inv(t) && t.live && !t.finished
    ensures Less(Rank(StreamCompleted(t, message, total, cancel, script, starts, disk)), Rank(t))
  {
    hide MessageLanded, WarnContext, ShapeOf, RoundShape, Justified;
    var s := t.(stream := false, live := false, tokens := if total > 0 then total else t.tokens);
    MessageLandedMoves(WarnContext(s, cancel), message, script, starts, disk);
  }

  /** The rank is never negative while the turn lasts, and every callback but text and cancels lowers it. */
  lemma EveryWakeupGoesOn(t: Turn, e: Event, disk: Disk)
    requires Inv(t) && Enabled(t, e) && !t.finished
    ensures Rank(t).0 > 0 && Rank(t).1 >= 0 && Rank(t).2 >= 0
    ensures var r := Next(t, e, disk);
            if (e.TextEvent? || e.CancelEvent?) && !r.finished then Rank(r) == Rank(t) else Less(Rank(r), Rank(t))
  {
    hide ShapeOf, RoundShape, Justified, StreamCompleted, ToolDone, IsAssistant;
    match e
    case DoneEvent(message, total, cancel, script, starts) =>
      DoneEventGoesOn(t, message, total, cancel, script, starts, disk);
    case ToolEvent(content, cancel, script, starts) =>
      ToolEventGoesOn(t, content, cancel, script, starts, disk);
    case TimerEvent(_) =>
    case TextEvent(_) =>
    case ErrorEvent =>
    case CancelEvent(_) =>
  }

  // ----- answers that fit -----

  predicate Fits(calls: seq<Json>, content: bytes) {
    forall i :: 0 <= i < |calls| ==> !TooLong(ToolMessage(AnswerId(calls[i]), content))
  }

  /** No answer that the script offers is too long for a line of the session. */
  predicate ScriptFits(calls: seq<Json>, script: seq<ToolStep>) {
    forall j :: 0 <= j < |script| ==> script[j].RunsOn? || Fits(calls, script[j].content)
  }

  predicate EventFits(t: Turn, e: Event) {
    match e
    case DoneEvent(message, _, _, script, _) => Fits(CallsOf(message), INTERRUPTED)
        && ScriptFits(CallsOf(message), script)
    case ToolEvent(content, _, script, _) => Fits(t.calls, content) && Fits(t.calls, INTERRUPTED)
        && ScriptFits(t.calls, script)
    case _ => true
  }

  lemma ToolCompletedFits(t: Turn, content: bytes, cancel: bool, disk: Disk)
    requires Sound(t) && t.toolIndex < |t.calls| && Fits(t.calls, content) && !t.failing
    ensures var r := ToolCompleted(t, content, cancel, disk); r.failing ==> Closed(r.log)
  {
    hide AnswerCall, ShapeOf, RoundShape, TooLong, ToolMessage, Closed;
    AnswerEffect(t, content, disk);
  }

  lemma StartToolFits(t: Turn, s: ToolStep, disk: Disk)
    requires Sound(t) && t.toolIndex < |t.calls| && !t.canceling && !t.failing && !t.finished
    requires s.RunsOn? || Fits(t.calls, s.content)
    ensures var r := StartTool(t, s, disk); r.failing ==> Closed(r.log)
  {
    hide ToolCompleted, ShapeOf, RoundShape, Fits, Closed;
    if !s.RunsOn? {
      var gated := if s.Rejected? then t else CancelIf(t, s.cancelInGate);
      ToolCompletedFits(if s.RunsInline? then Ran(gated) else gated, s.content, s.cancelAfter, disk);
    }
  }

  lemma {:induction false} DriveFits(t: Turn, script: seq<ToolStep>, disk: Disk)
    requires Driving(t) && ScriptFits(t.calls, script) && (t.failing ==> Closed(t.log))
    ensures var d := Drive(t, script, disk); d.failing ==> Closed(d.log)
    decreases |script|
  {
    hide StartTool, Fits, Closed;
    if t.toolIndex < |t.calls| && !t.canceling && !t.failing {
      var s := if script == [] then RunsOn(false) else script[0];
      StartToolKeeps(t, s, disk);
      StartToolFits(t, s, disk);
      var after := StartTool(t, s, disk);
      if script != [] && !after.exec {
        assert after.(exec := false) == after;
        DriveFits(after, script[1..], disk);
      }
    }
  }

  lemma {:induction false} SynthesizeFits(t: Turn, disk: Disk)
    requires Sound(t) && Fits(t.calls, INTERRUPTED)
    ensures var r := Synthesize(t, disk); r.toolIndex < |r.calls| ==> Closed(r.log)
    decreases |t.calls| - t.toolIndex
  {
    hide AnswerCall, ShapeOf, RoundShape, TooLong, ToolMessage, Closed;
    if t.toolIndex < |t.calls| {
      AnswerEffect(t, INTERRUPTED, disk);
      var (after, ok) := AnswerCall(t, INTERRUPTED, disk);
      if ok { SynthesizeFits(after.(toolIndex := after.toolIndex + 1), disk); }
    }
  }

  /** A finished turn leaves no call open, unless the session can take nothing more. */
  predicate NothingOpen(t: Turn) {
    t.finished && t.toolIndex < |t.calls| ==> Closed(t.log)
  }

  lemma DriveToolsFits(t: Turn, script: seq<ToolStep>, starts: bool, disk: Disk)
    requires Driving(t) && (t.failing ==> Closed(t.log)) && ScriptFits(t.calls, script) && Fits(t.calls, INTERRUPTED)
    ensures NothingOpen(DriveTools(t, script, starts, disk))
  {
    hide Drive, Synthesize, ShapeOf, RoundShape, Fits, Closed, ScriptFits;
    DriveFits(t, script, disk);
    DriveKeeps(t, script, disk);
    var d := Drive(t, script, disk);
    if !d.exec {
      assert d.(exec := false) == d;
      if !d.failing && d.canceling { SynthesizeFits(d, disk); }
    }
  }

  lemma RoundOpenedFits(a: Turn, message: Json, script: seq<ToolStep>, starts: bool, disk: Disk)
    requires !a.finished && !a.stream && !a.live && !a.timer && !a.exec && a.step < a.stepCap
        && a.requests == a.step + 1
    requires Sound(a.(calls := CallsOf(message), toolIndex := 0)) && !a.failing
    requires Fits(CallsOf(message), INTERRUPTED) && ScriptFits(CallsOf(message), script)
    ensures NothingOpen(RoundOpened(a, message, script, starts, disk))
  {
    hide DriveTools, Synthesize, ShapeOf, RoundShape, CallsOf, Fits, ScriptFits, Closed;
    var open := a.(calls := CallsOf(message), toolIndex := 0);
    if open.cancelRequested {
      SynthesizeFits(open.(canceling := true), disk);
    } else {
      DriveToolsFits(open, script, starts, disk);
    }
  }

  lemma StreamCompletedFits(t: Turn, message: Json, total: int, cancel: bool, script: seq<ToolStep>, starts: bool,
      disk: Disk)
    requires Inv(t) && t.live && IsAssistant(message)
    requires Fits(CallsOf(message), INTERRUPTED) && ScriptFits(CallsOf(message), script)
    ensures NothingOpen(StreamCompleted(t, message, total, cancel, script, starts, disk))
  {
    hide MessageLanded, WarnContext, IsAssistant, CallsOf, Fits, ScriptFits, Idle, Inv, NothingOpen;
    StreamEnds(t, total, cancel);
    var s := t.(stream := false, live := false, tokens := if total > 0 then total else t.tokens);
    MessageLandedFits(WarnContext(s, cancel), message, script, starts, disk);
  }

  lemma MessageLandedFits(w: Turn, message: Json, script: seq<ToolStep>, starts: bool, disk: Disk)
    requires Idle(w) && !w.failing && IsAssistant(message)
    requires Fits(CallsOf(message), INTERRUPTED) && ScriptFits(CallsOf(message), script)
    ensures NothingOpen(MessageLanded(w, message, script, starts, disk))
  {
    hide Store, RoundOpened, ShapeOf, RoundShape, CallsOf, IsAssistant, Sound, Fits, ScriptFits, Closed;
    MessageLands(w, message, disk);
    var (log, ok) := Store(w.log, message, disk);
    if ok && CallsOf(message) != [] {
      RoundOpenedFits(w.(log := log), message, script, starts, disk);
    }
  }

  /** If every answer fits its line, a turn ends with every call answered, or in a session that is closed. */
  lemma FittingAnswersLeaveNothingOpen(t: Turn, e: Event, disk: Disk)
    requires Inv(t) && Enabled(t, e) && EventFits(t, e) && NothingOpen(t)
    ensures NothingOpen(Next(t, e, disk))
    ensures Next(t, e, disk).finished ==>
              ShapeOf(Next(t, e, disk).log.messages) == Complete || Closed(Next(t, e, disk).log)
  {
    hide ShapeOf, StreamCompleted, DriveTools, ToolCompleted, IsAssistant, Closed, Fits, ScriptFits;
    EveryStepKeeps(t, e, disk);
    match e
    case DoneEvent(message, total, cancel, script, starts) =>
      StreamCompletedFits(t, message, total, cancel, script, starts, disk);
    case ToolEvent(content, cancel, script, starts) =>
      var s := t.(exec := false);
      ToolCompletedKeeps(s, content, cancel, disk);
      ToolCompletedFits(s, content, cancel, disk);
      DriveToolsFits(ToolCompleted(s, content, cancel, disk), script, starts, disk);
    case TimerEvent(_) =>
    case TextEvent(_) =>
    case ErrorEvent =>
    case CancelEvent(_) =>
  }

  /**
   An answer that is too long, and only such an answer, ends the turn with its call open in a session that
   still takes messages; any message but that answer then breaks the conversation.
   */
  lemma OversizedAnswerLeavesTheRoundOpen(t: Turn, content: bytes, cancel: bool, script: seq<ToolStep>, starts: bool,
      disk: Disk, next: Json)
    requires Driving(t) && t.toolIndex < |t.calls| && !t.failing && !Closed(t.log)
    requires IsMessage(next) && ViewOf(next) == Plain
    ensures var r := DriveTools(ToolCompleted(t, content, cancel, disk), script, starts, disk);
            var answer := ToolMessage(AnswerId(t.calls[t.toolIndex]), content);
            && (TooLong(answer) ==>
                  && r.finished && r.endings == [TurnFailed] && r.log == t.log
                  && ShapeOf(r.log.messages) == Open(AnswerIds(t.calls), t.toolIndex)
                  && ShapeOf(r.log.messages + [next]) == Broken)
            && (!TooLong(answer) ==> r.toolIndex > t.toolIndex || Closed(r.log))
  {
    hide Store, ShapeOf, ToolMessage, ViewOf, AnswerId, TooLong, Closed, IsMessage, Drive, Synthesize, DriveTools;
    var answer := ToolMessage(AnswerId(t.calls[t.toolIndex]), content);
    ToolMessageView(AnswerId(t.calls[t.toolIndex]), content);
    StoreEffect(t.log, answer, disk);
    AnswerEffect(t, content, disk);
    ShapeSnoc(t.log.messages, next);
    var s := ToolCompleted(t, content, cancel, disk);
    if s.failing {
      assert t.endings == [];
      FailingEnds(s, script, starts, disk);
    } else {
      DriveToolsForward(s, script, starts, disk);
    }
  }

  lemma DriveToolsForward(t: Turn, script: seq<ToolStep>, starts: bool, disk: Disk)
    requires t.toolIndex <= |t.calls| && !t.exec
    ensures DriveTools(t, script, starts, disk).toolIndex >= t.toolIndex
  {
    hide Drive, Reached;
    var d := Drive(t, script, disk);
    SynthesizeForward(d, disk);
  }

  lemma {:induction false} SynthesizeForward(t: Turn, disk: Disk)
    requires t.toolIndex <= |t.calls|
    ensures Synthesize(t, disk).toolIndex >= t.toolIndex
    decreases |t.calls| - t.toolIndex
  {
    hide AnswerCall;
    if t.toolIndex < |t.calls| {
      var (after, ok) := AnswerCall(t, INTERRUPTED, disk);
      if ok { SynthesizeForward(after.(toolIndex := after.toolIndex + 1), disk); }
    }
  }
}
