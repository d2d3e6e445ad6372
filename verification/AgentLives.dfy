/**
 A session over many lives of the process: each run ends with a death at any point, and the next one loads the file,
 repairs the conversation and goes on.
 */
module AgentLives {
  import opened Bytes
  import opened CJsonSpec
  import opened CJsonLaws
  import opened SessionSpec
  import opened SessionLaws
  import opened AgentSpec
  import opened AgentLaws
  import opened AgentSession
  import opened AgentRepair
  import opened AgentRecovery

  // ----- the conversation only grows -----

  /** No message is dropped, changed or reordered. */
  predicate Kept(log: Log, after: Log) { log.messages <= after.messages }

  lemma KeptOn(a: Log, b: Log, c: Log)
    requires Kept(a, b) && Kept(b, c)
    ensures Kept(a, c)
  {
  }

  lemma FinishKeepsLog(t: Turn, ending: Ending)
    ensures FinishTurn(t, ending).log == t.log
  {
  }

  lemma NextStepKeepsLog(t: Turn, starts: bool)
    ensures NextStep(t, starts).log == t.log
  {
    hide Reached, FinishTurn;
    var s := t.(step := t.step + 1);
    FinishKeepsLog(s, TurnStepCap);
    FinishKeepsLog(s, TurnContextLimit);
    FinishKeepsLog(s, TurnFailed);
  }

  lemma StoreGrows(log: Log, msg: Json, disk: Disk)
    ensures Kept(log, Store(log, msg, disk).0)
  {
    hide PrintedLine, IsMessage;
  }

  lemma AnswerGrows(t: Turn, content: bytes, disk: Disk)
    requires t.toolIndex < |t.calls|
    ensures Kept(t.log, AnswerCall(t, content, disk).0.log)
  {
    hide Store, ToolMessage, Kept;
    StoreGrows(t.log, ToolMessage(AnswerId(t.calls[t.toolIndex]), content), disk);
  }

  lemma ToolCompletedGrows(t: Turn, content: bytes, cancel: bool, disk: Disk)
    requires t.toolIndex < |t.calls|
    ensures Kept(t.log, ToolCompleted(t, content, cancel, disk).log)
  {
    hide AnswerCall, Kept;
    AnswerGrows(t, content, disk);
  }

  lemma StartToolGrows(t: Turn, s: ToolStep, disk: Disk)
    requires t.toolIndex < |t.calls|
    ensures Kept(t.log, StartTool(t, s, disk).log)
  {
    hide ToolCompleted;
    if !s.RunsOn? {
      hide Kept;
      var gated := if s.Rejected? then t else CancelIf(t, s.cancelInGate);
      ToolCompletedGrows(if s.RunsInline? then Ran(gated) else gated, s.content, s.cancelAfter, disk);
    }
  }

  lemma {:induction false} DriveGrows(t: Turn, script: seq<ToolStep>, disk: Disk)
    requires t.toolIndex <= |t.calls| && !t.exec
    ensures Kept(t.log, Drive(t, script, disk).log)
    decreases |script|
  {
    hide StartTool;
    if t.toolIndex < |t.calls| && !t.canceling && !t.failing {
      var s := if script == [] then RunsOn(false) else script[0];
      StartToolGrows(t, s, disk);
      var after := StartTool(t, s, disk);
      if script != [] && !after.exec { DriveGrows(after, script[1..], disk); }
    }
  }

  lemma {:induction false} SynthesizeGrows(t: Turn, disk: Disk)
    requires t.toolIndex <= |t.calls|
    ensures Kept(t.log, Synthesize(t, disk).log)
    decreases |t.calls| - t.toolIndex
  {
    hide AnswerCall;
    if t.toolIndex < |t.calls| {
      AnswerGrows(t, INTERRUPTED, disk);
      var (after, ok) := AnswerCall(t, INTERRUPTED, disk);
      if ok { SynthesizeGrows(after.(toolIndex := after.toolIndex + 1), disk); }
    }
  }

  lemma DriveToolsGrows(t: Turn, script: seq<ToolStep>, starts: bool, disk: Disk)
    requires t.toolIndex <= |t.calls| && !t.exec
    ensures Kept(t.log, DriveTools(t, script, starts, disk).log)
  {
    hide Drive, Synthesize, NextStep, FinishTurn, Kept;
    DriveGrows(t, script, disk);
    var d := Drive(t, script, disk);
    FinishKeepsLog(d, TurnFailed);
    NextStepKeepsLog(d, starts);
    if !d.exec && d.canceling {
      SynthesizeGrows(d, disk);
      FinishKeepsLog(Synthesize(d, disk), TurnInterrupted);
      KeptOn(t.log, d.log, Synthesize(d, disk).log);
    }
  }

  lemma RoundOpenedGrows(t: Turn, message: Json, script: seq<ToolStep>, starts: bool, disk: Disk)
    requires !t.exec
    ensures Kept(t.log, RoundOpened(t, message, script, starts, disk).log)
  {
    hide DriveTools, Synthesize, CallsOf;
    var open := t.(calls := CallsOf(message), toolIndex := 0);
    SynthesizeGrows(open.(canceling := true), disk);
    DriveToolsGrows(open, script, starts, disk);
  }

  lemma MessageLandedGrows(t: Turn, message: Json, script: seq<ToolStep>, starts: bool, disk: Disk)
    requires !t.exec
    ensures Kept(t.log, MessageLanded(t, message, script, starts, disk).log)
  {
    hide Store, RoundOpened, CallsOf, FinishTurn, Kept;
    StoreGrows(t.log, message, disk);
    var a := t.(log := Store(t.log, message, disk).0);
    FinishKeepsLog(a, TurnFailed);
    FinishKeepsLog(a, TurnDone);
    RoundOpenedGrows(a, message, script, starts, disk);
    KeptOn(t.log, a.log, RoundOpened(a, message, script, starts, disk).log);
  }

  lemma StreamCompletedGrows(t: Turn, message: Json, total: int, cancel: bool, script: seq<ToolStep>, starts: bool,
      disk: Disk)
    requires !t.exec
    ensures Kept(t.log, StreamCompleted(t, message, total, cancel, script, starts, disk).log)
  {
    hide MessageLanded, WarnContext, Kept;
    var s := t.(stream := false, live := false, tokens := if total > 0 then total else t.tokens);
    MessageLandedGrows(WarnContext(s, cancel), message, script, starts, disk);
  }

  lemma ToolDoneGrows(t: Turn, content: bytes, cancel: bool, script: seq<ToolStep>, starts: bool, disk: Disk)
    requires t.finished || t.toolIndex < |t.calls|
    ensures Kept(t.log, ToolDone(t, content, cancel, script, starts, disk).log)
  {
    hide ToolCompleted, DriveTools;
    if !t.finished {
      var s := t.(exec := false);
      ToolCompletedGrows(s, content, cancel, disk);
      DriveToolsGrows(ToolCompleted(s, content, cancel, disk), script, starts, disk);
    }
  }

  lemma StreamFailedKeepsLog(t: Turn)
    ensures StreamFailed(t).log == t.log
  {
  }

  lemma TimerKeepsLog(t: Turn, request: Request)
    ensures TimerFired(t, request).log == t.log
  {
    hide StreamFailed;
    StreamFailedKeepsLog(t.(timer := false, requests := t.requests + 1, live := true));
  }

  lemma CallbackGrows(t: Turn, e: Event, disk: Disk)
    requires e.DoneEvent? ==> !t.exec
    requires e.ToolEvent? ==> t.finished || t.toolIndex < |t.calls|
    ensures Kept(t.log, Next(t, e, disk).log)
  {
    hide StreamCompleted, ToolDone, StreamFailed, TimerFired;
    match e
    case DoneEvent(message, total, cancel, script, starts) =>
      StreamCompletedGrows(t, message, total, cancel, script, starts, disk);
    case ToolEvent(content, cancel, script, starts) => ToolDoneGrows(t, content, cancel, script, starts, disk);
    case TimerEvent(request) => TimerKeepsLog(t, request);
    case CancelEvent(_) =>
      StreamFailedKeepsLog(t);
      StreamFailedKeepsLog(Cancel(t));
    case ErrorEvent => StreamFailedKeepsLog(t);
    case TextEvent(_) =>
  }

  lemma ActGrows(s: Session, a: Act)
    requires SessionInv(s) && CanAct(s, a)
    ensures Kept(LogOf(s), LogOf(After(s, a)))
  {
    hide Next, Store, UserMessage, Inv, NothingOpen, Enabled, ShapeOf, Closed;
    match a
    case Callback(e, disk) => EnabledFits(s.t, e); CallbackGrows(s.t, e, disk);
    case Prompt(text, _, _, _, _, _, disk) => StoreGrows(LogOf(s), UserMessage(text), disk);
  }

  lemma {:induction false} SessionKeeps(s: Session, acts: seq<Act>)
    requires SessionInv(s) && PossibleSession(s, acts)
    ensures Kept(LogOf(s), LogOf(AfterSession(s, acts))) && SessionInv(AfterSession(s, acts))
    decreases |acts|
  {
    hide After, ActFits, CanAct, SessionInv;
    if acts != [] {
      EveryActKeeps(s, acts[0]);
      ActGrows(s, acts[0]);
      SessionKeeps(After(s, acts[0]), acts[1..]);
    }
  }

  lemma {:induction false} LoopGrows(log: Log, calls: seq<Json>, from: nat, i: nat, disk: Disk)
    requires i <= |calls|
    ensures Kept(log, RepairFrom(log, calls, from, i, disk).0)
    decreases |calls| - i
  {
    hide Store, ToolMessage, CallAnswered;
    if i < |calls| {
      var msg := ToolMessage(AnswerId(calls[i]), INTERRUPTED);
      StoreGrows(log, msg, disk);
      LoopGrows(log, calls, from, i + 1, disk);
      LoopGrows(Store(log, msg, disk).0, calls, from, i + 1, disk);
    }
  }

  // ----- lives -----

  /** A process's run over the session, which ends with its death, and the disk that the next one's repair meets. */
  datatype Life = Life(acts: seq<Act>, repairs: Disk)

  /** A resumed session that is whole: no torn line, a completable round, and a repair that succeeds. */
  predicate CanResume(file: bytes, disk: Disk) {
    && Reopened(file).Some? && !Torn(file)
    && var log := Reopened(file).value;
    Completes(log.messages) && RepairCarries(log.messages) && Repair(log, disk).1
  }

  /** session_load and agent_repair_session. */
  function Resumed(file: bytes, disk: Disk): Session
    requires CanResume(file, disk)
  {
    Between(Repair(Reopened(file).value, disk).0)
  }

  lemma ResumedIsWhole(log: Log, disk: Disk)
    requires Recoverable(log) && CanResume(log.file, disk)
    ensures var s := Resumed(log.file, disk);
      && SessionInv(s) && Recoverable(LogOf(s)) && !LogOf(s).poisoned
      && ShapeOf(LogOf(s).messages) == Complete && Kept(log, LogOf(s))
  {
    hide Run, Finish, ShapeOf, Completes, RepairCarries, Torn, Repair;
    RepairKeeps(Reopened(log.file).value, disk);
    RepairLastsIff(log, disk);
    var resumed := Reopened(log.file).value;
    SuccessfulRepairIsNotPoisoned(resumed, disk);
    CompleteSessionsAreReady(Repair(resumed, disk).0);
  }

  lemma RepairKeeps(log: Log, disk: Disk)
    ensures Kept(log, Repair(log, disk).0)
  {
    hide RepairFrom, CallsOf, IsRound;
    var r := LastRound(log.messages);
    if r >= 0 { LoopGrows(log, CallsOf(log.messages[r]), r + 1, 0, disk); }
  }

  lemma SuccessfulRepairIsNotPoisoned(log: Log, disk: Disk)
    requires !log.poisoned && Repair(log, disk).1
    ensures !Repair(log, disk).0.poisoned
  {
    hide RepairFrom, CallsOf, IsRound;
    var r := LastRound(log.messages);
    if r >= 0 { LoopIsNotPoisoned(log, CallsOf(log.messages[r]), r + 1, 0, disk); }
  }

  lemma {:induction false} LoopIsNotPoisoned(log: Log, calls: seq<Json>, from: nat, i: nat, disk: Disk)
    requires i <= |calls| && !log.poisoned && RepairFrom(log, calls, from, i, disk).1
    ensures !RepairFrom(log, calls, from, i, disk).0.poisoned
    decreases |calls| - i
  {
    hide CallAnswered, ToolMessage, PrintedLine, IsMessage;
    if i < |calls| {
      if CallAnswered(log.messages, from, CallId(calls[i])) {
        LoopIsNotPoisoned(log, calls, from, i + 1, disk);
      } else {
        LoopIsNotPoisoned(Store(log, ToolMessage(AnswerId(calls[i]), INTERRUPTED), disk).0, calls, from, i + 1, disk);
      }
    }
  }

  /** session_new: where the first life starts. */
  lemma NewSessionIsWhole(id: bytes, created: Json)
    requires IsCString(id) && 0 < |id| <= ID_LENGTH
    requires (created.Integer? || created.Real?) && Storable(created)
        && |Print(Header(id, created), false, 0)| <= MAX_LINE
    ensures var log := Log(Print(Header(id, created), false, 0) + [LF], [], false, false);
      SessionInv(Between(log)) && Recoverable(log)
  {
    hide Run, Finish, Print, Storable, Header, SessionInv;
    HeaderLoads(id, created);
    CompleteSessionsAreReady(Log(Print(Header(id, created), false, 0) + [LF], [], false, false));
  }

  /** Lives that follow one another, each resumed from the file that the one before it left. */
  predicate PossibleLives(s: Session, lives: seq<Life>)
    requires SessionInv(s) && Recoverable(LogOf(s))
    decreases |lives|
  {
    lives == []
    || (PossibleSession(s, lives[0].acts) && SessionCarries(s, lives[0].acts)
        && var left := LogOf(AfterSession(s, lives[0].acts));
        CanResume(left.file, lives[0].repairs)
        && (EverySessionRecovers(s, lives[0].acts);
            ResumedIsWhole(left, lives[0].repairs);
            PossibleLives(Resumed(left.file, lives[0].repairs), lives[1..])))
  }

  function AfterLives(s: Session, lives: seq<Life>): (r: Session)
    requires SessionInv(s) && Recoverable(LogOf(s)) && PossibleLives(s, lives)
    ensures SessionInv(r) && Recoverable(LogOf(r))
    decreases |lives|
  {
    if lives == [] then s
    else
      var left := LogOf(AfterSession(s, lives[0].acts));
      EverySessionRecovers(s, lives[0].acts);
      ResumedIsWhole(left, lives[0].repairs);
      AfterLives(Resumed(left.file, lives[0].repairs), lives[1..])
  }

  lemma {:induction false} LivesKeep(s: Session, lives: seq<Life>)
    requires SessionInv(s) && Recoverable(LogOf(s)) && PossibleLives(s, lives)
    ensures Kept(LogOf(s), LogOf(AfterLives(s, lives)))
    decreases |lives|
  {
    hide SessionInv, Recoverable, PossibleSession, AfterSession, SessionCarries, CanResume, Resumed;
    if lives != [] {
      var left := LogOf(AfterSession(s, lives[0].acts));
      EverySessionRecovers(s, lives[0].acts);
      SessionKeeps(s, lives[0].acts);
      ResumedIsWhole(left, lives[0].repairs);
      LivesKeep(Resumed(left.file, lives[0].repairs), lives[1..]);
    }
  }

  /**
   After any number of lives, and at any point of the next one: the conversation is sound, every message it ever held
   is still in it and in its place, and what the file loads to is unbroken and holds all of them.
   */
  lemma EveryLifeRecovers(s: Session, lives: seq<Life>, acts: seq<Act>)
    requires SessionInv(s) && Recoverable(LogOf(s)) && PossibleLives(s, lives)
    requires PossibleSession(AfterLives(s, lives), acts) && SessionCarries(AfterLives(s, lives), acts)
    ensures var e := AfterSession(AfterLives(s, lives), acts);
      && SessionInv(e) && Recoverable(LogOf(e)) && Kept(LogOf(s), LogOf(e))
      && LogOf(s).messages <= Load(LogOf(e).file).value.scan.messages
  {
    hide SessionInv, PossibleSession, AfterSession, SessionCarries, PossibleLives, AfterLives, ShapeOf, Load;
    LivesKeep(s, lives);
    var r := AfterLives(s, lives);
    EverySessionRecovers(r, acts);
    SessionKeeps(r, acts);
  }
}
