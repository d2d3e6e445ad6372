/**
 Crash, load and repair, from the bytes of the session file: what a process that dies at any point of any session
 leaves behind, and when repairing it lasts.
 */
module AgentRecovery {
  import opened Bytes
  import opened CJsonSpec
  import opened CJsonLaws
  import opened SessionSpec
  import opened SessionLaws
  import opened AgentSpec
  import opened AgentLaws
  import opened AgentSession
  import opened AgentRepair

  // ----- what the file holds while a session runs -----

  /**
   The file loads to the conversation in memory, or, once a write has fallen short, to that and the message in flight;
   and what it loads to is unbroken.  As long as writes have succeeded, file and memory agree throughout.
   */
  predicate Recoverable(log: Log) {
    && (!log.poisoned ==> InSync(log))
    && match Load(log.file)
       case Err(_) => false
       case Ok(l) =>
         var loaded := l.scan.messages;
         && ShapeOf(loaded) != Broken
         && (loaded == log.messages
             || (log.poisoned && |loaded| == |log.messages| + 1 && loaded[..|log.messages|] == log.messages))
  }

  /** Storing a message that fits the conversation, however much of it reaches the disk. */
  lemma StoreRecovers(log: Log, msg: Json, disk: Disk)
    requires Recoverable(log) && IsMessage(msg) && Carried(msg)
    requires ShapeOf(log.messages + [msg]) != Broken && ShapeOf(log.messages) != Broken
    ensures Recoverable(Store(log, msg, disk).0)
  {
    hide ShapeOf, Carried, Load, PrintedLine, IsMessage;
    var op := Op(msg, Taken(disk, log, |Record(log, PrintedLine(msg))|));
    if Accepts(log, msg) {
      AppendLoads(log, op);
      OneLanded(log, op);
      var after := Append(log, msg, op.written).0;
      assert log.messages + [] == log.messages;
      if after.poisoned {
        assert (log.messages + [msg])[..|log.messages|] == log.messages;
      } else {
        SyncLoads(after);
      }
    }
  }

  /** Every answer to one of the calls with this content survives printing and parsing. */
  predicate Carries(calls: seq<Json>, content: bytes) {
    forall i :: 0 <= i < |calls| ==> Carried(ToolMessage(AnswerId(calls[i]), content))
  }

  predicate ScriptCarries(calls: seq<Json>, script: seq<ToolStep>) {
    forall j :: 0 <= j < |script| ==> script[j].RunsOn? || Carries(calls, script[j].content)
  }

  /** What this callback stores survives printing and parsing. */
  predicate EventCarries(t: Turn, e: Event) {
    match e
    case DoneEvent(message, _, _, script, _) =>
      Carried(message) && Carries(CallsOf(message), INTERRUPTED) && ScriptCarries(CallsOf(message), script)
    case ToolEvent(content, _, script, _) =>
      Carries(t.calls, content) && Carries(t.calls, INTERRUPTED) && ScriptCarries(t.calls, script)
    case _ => true
  }

  lemma AnswerRecovers(t: Turn, content: bytes, disk: Disk)
    requires t.toolIndex < |t.calls| && ShapeOf(t.log.messages) == RoundShape(t.calls, t.toolIndex)
    requires Recoverable(t.log) && Carries(t.calls, content)
    ensures Recoverable(AnswerCall(t, content, disk).0.log)
  {
    hide Store, ShapeOf, ToolMessage, Carried, Recoverable, AnswerId, ViewOf, IsMessage;
    var msg := ToolMessage(AnswerId(t.calls[t.toolIndex]), content);
    ToolMessageView(AnswerId(t.calls[t.toolIndex]), content);
    ShapeSnoc(t.log.messages, msg);
    StoreRecovers(t.log, msg, disk);
  }

  lemma ToolCompletedRecovers(t: Turn, content: bytes, cancel: bool, disk: Disk)
    requires t.toolIndex < |t.calls| && ShapeOf(t.log.messages) == RoundShape(t.calls, t.toolIndex)
    requires Recoverable(t.log) && Carries(t.calls, content)
    ensures Recoverable(ToolCompleted(t, content, cancel, disk).log)
  {
    hide AnswerCall, ShapeOf, Recoverable, Carries, RoundShape;
    AnswerRecovers(t, content, disk);
  }

  lemma StartToolRecovers(t: Turn, s: ToolStep, disk: Disk)
    requires t.toolIndex < |t.calls| && ShapeOf(t.log.messages) == RoundShape(t.calls, t.toolIndex)
    requires Recoverable(t.log) && (s.RunsOn? || Carries(t.calls, s.content))
    ensures Recoverable(StartTool(t, s, disk).log)
  {
    hide ToolCompleted, ShapeOf, Recoverable, Carries, RoundShape;
    if !s.RunsOn? {
      var gated := if s.Rejected? then t else CancelIf(t, s.cancelInGate);
      ToolCompletedRecovers(if s.RunsInline? then Ran(gated) else gated, s.content, s.cancelAfter, disk);
    }
  }

  lemma {:induction false} DriveRecovers(t: Turn, script: seq<ToolStep>, disk: Disk)
    requires Driving(t) && Recoverable(t.log) && ScriptCarries(t.calls, script)
    ensures Recoverable(Drive(t, script, disk).log)
    decreases |script|
  {
    hide StartTool, Recoverable, Carries, ShapeOf, RoundShape;
    if t.toolIndex < |t.calls| && !t.canceling && !t.failing {
      var s := if script == [] then RunsOn(false) else script[0];
      StartToolKeeps(t, s, disk);
      StartToolRecovers(t, s, disk);
      var after := StartTool(t, s, disk);
      if script != [] && !after.exec {
        assert after.(exec := false) == after;
        DriveRecovers(after, script[1..], disk);
      }
    }
  }

  lemma {:induction false} SynthesizeRecovers(t: Turn, disk: Disk)
    requires Sound(t) && Recoverable(t.log) && Carries(t.calls, INTERRUPTED)
    ensures Recoverable(Synthesize(t, disk).log)
    decreases |t.calls| - t.toolIndex
  {
    hide AnswerCall, Recoverable, Carries, ShapeOf, RoundShape;
    if t.toolIndex < |t.calls| {
      AnswerEffect(t, INTERRUPTED, disk);
      AnswerRecovers(t, INTERRUPTED, disk);
      var (after, ok) := AnswerCall(t, INTERRUPTED, disk);
      if ok { SynthesizeRecovers(after.(toolIndex := after.toolIndex + 1), disk); }
    }
  }

  lemma DriveToolsRecovers(t: Turn, script: seq<ToolStep>, starts: bool, disk: Disk)
    requires Driving(t) && Recoverable(t.log) && ScriptCarries(t.calls, script) && Carries(t.calls, INTERRUPTED)
    ensures Recoverable(DriveTools(t, script, starts, disk).log)
  {
    hide Drive, Synthesize, Recoverable, Carries, ScriptCarries, ShapeOf, RoundShape;
    DriveKeeps(t, script, disk);
    DriveRecovers(t, script, disk);
    var d := Drive(t, script, disk);
    if !d.exec {
      assert d.(exec := false) == d;
      if !d.failing && d.canceling { SynthesizeRecovers(d, disk); }
    }
  }

  lemma RoundOpenedRecovers(a: Turn, message: Json, script: seq<ToolStep>, starts: bool, disk: Disk)
    requires !a.finished && !a.stream && !a.live && !a.timer && !a.exec && a.step < a.stepCap
        && a.requests == a.step + 1
    requires Sound(a.(calls := CallsOf(message), toolIndex := 0)) && Recoverable(a.log)
    requires Carries(CallsOf(message), INTERRUPTED) && ScriptCarries(CallsOf(message), script)
    ensures Recoverable(RoundOpened(a, message, script, starts, disk).log)
  {
    hide DriveTools, Synthesize, Recoverable, Carries, ScriptCarries, ShapeOf, RoundShape, CallsOf;
    var open := a.(calls := CallsOf(message), toolIndex := 0);
    if open.cancelRequested {
      SynthesizeRecovers(open.(canceling := true), disk);
    } else {
      DriveToolsRecovers(open, script, starts, disk);
    }
  }

  lemma MessageLandedRecovers(w: Turn, message: Json, script: seq<ToolStep>, starts: bool, disk: Disk)
    requires Idle(w) && IsAssistant(message) && Recoverable(w.log) && Carried(message)
    requires Carries(CallsOf(message), INTERRUPTED) && ScriptCarries(CallsOf(message), script)
    ensures Recoverable(MessageLanded(w, message, script, starts, disk).log)
  {
    hide Store, RoundOpened, ShapeOf, CallsOf, Recoverable, Carried, Carries, ScriptCarries, Justified;
    MessageLands(w, message, disk);
    AssistantFollows(w.log, message, disk);
    var (log, ok) := Store(w.log, message, disk);
    if ok && CallsOf(message) != [] {
      RoundOpenedRecovers(w.(log := log), message, script, starts, disk);
    }
  }

  lemma AssistantFollows(log: Log, message: Json, disk: Disk)
    requires IsAssistant(message) && ShapeOf(log.messages) == Complete && Recoverable(log) && Carried(message)
    ensures Recoverable(Store(log, message, disk).0)
  {
    hide Store, ShapeOf, CallsOf, Recoverable, Carried, GetString;
    ShapeSnoc(log.messages, message);
    StoreRecovers(log, message, disk);
  }

  lemma StreamCompletedRecovers(t: Turn, message: Json, total: int, cancel: bool, script: seq<ToolStep>, starts: bool,
      disk: Disk)
    requires Inv(t) && t.live && IsAssistant(message) && Recoverable(t.log) && Carried(message)
    requires Carries(CallsOf(message), INTERRUPTED) && ScriptCarries(CallsOf(message), script)
    ensures Recoverable(StreamCompleted(t, message, total, cancel, script, starts, disk).log)
  {
    hide MessageLanded, WarnContext, IsAssistant, CallsOf, Idle, Inv, Recoverable, Carried, Carries, ScriptCarries;
    StreamEnds(t, total, cancel);
    var s := t.(stream := false, live := false, tokens := if total > 0 then total else t.tokens);
    MessageLandedRecovers(WarnContext(s, cancel), message, script, starts, disk);
  }

  lemma EveryCallbackRecovers(t: Turn, e: Event, disk: Disk)
    requires Inv(t) && Enabled(t, e) && Recoverable(t.log) && EventCarries(t, e)
    ensures Recoverable(Next(t, e, disk).log)
  {
    hide ShapeOf, StreamCompleted, DriveTools, ToolCompleted, IsAssistant, Recoverable, Carried, Carries, ScriptCarries;
    match e
    case DoneEvent(message, total, cancel, script, starts) =>
      StreamCompletedRecovers(t, message, total, cancel, script, starts, disk);
    case ToolEvent(content, cancel, script, starts) =>
      var s := t.(exec := false);
      if !t.finished {
        ToolCompletedKeeps(s, content, cancel, disk);
        ToolCompletedRecovers(s, content, cancel, disk);
        DriveToolsRecovers(ToolCompleted(s, content, cancel, disk), script, starts, disk);
      }
    case TimerEvent(_) =>
    case TextEvent(_) =>
    case ErrorEvent =>
    case CancelEvent(_) =>
  }

  // ----- whole sessions -----

  predicate ActCarries(s: Session, a: Act) {
    match a
    case Callback(e, _) => s.InTurn? ==> EventCarries(s.t, e)
    case Prompt(text, _, _, _, _, _, _) => Carried(UserMessage(text))
  }

  lemma EveryActRecovers(s: Session, a: Act)
    requires SessionInv(s) && CanAct(s, a) && Recoverable(LogOf(s)) && ActCarries(s, a)
    ensures Recoverable(LogOf(After(s, a)))
  {
    hide ShapeOf, Closed, Inv, NothingOpen, EventCarries, Next, Enabled, Recoverable, Carried, UserMessage, Store,
        ViewOf, IsMessage;
    match a
    case Callback(e, disk) => EveryCallbackRecovers(s.t, e, disk);
    case Prompt(text, _, _, _, _, _, disk) =>
      if s.InTurn? { EndedTurn(s.t); }
      var log := LogOf(s);
      UserMessageView(text);
      ShapeSnoc(log.messages, UserMessage(text));
      if ShapeOf(log.messages) == Complete {
        StoreRecovers(log, UserMessage(text), disk);
      } else {
        ClosedStays(log, UserMessage(text), disk);
      }
  }

  lemma ClosedStays(log: Log, msg: Json, disk: Disk)
    requires Closed(log)
    ensures Store(log, msg, disk).0 == log
  {
    hide PrintedLine, IsMessage;
  }

  /** What every act of a session stores survives printing and parsing. */
  predicate SessionCarries(s: Session, acts: seq<Act>)
    requires SessionInv(s) && PossibleSession(s, acts)
    decreases |acts|
  {
    acts == []
    || (ActCarries(s, acts[0]) && (EveryActKeeps(s, acts[0]); SessionCarries(After(s, acts[0]), acts[1..])))
  }

  /**
   Whenever the process dies, between the acts of any session or in the middle of a write: the file loads, to the
   conversation in memory or to that and the one message in flight, and what it loads to is unbroken.
   */
  lemma {:induction false} EverySessionRecovers(s: Session, acts: seq<Act>)
    requires SessionInv(s) && PossibleSession(s, acts) && SessionCarries(s, acts) && Recoverable(LogOf(s))
    ensures Recoverable(LogOf(AfterSession(s, acts)))
    decreases |acts|
  {
    hide After, ActFits, CanAct, SessionInv, ActCarries, Recoverable;
    if acts != [] {
      EveryActKeeps(s, acts[0]);
      EveryActRecovers(s, acts[0]);
      EverySessionRecovers(After(s, acts[0]), acts[1..]);
    }
  }

  // ----- load, repair, load again -----

  /** Repair only ever adds to the file. */
  lemma {:induction false} RepairExtends(log: Log, calls: seq<Json>, from: nat, i: nat, disk: Disk)
      returns (more: bytes)
    requires i <= |calls|
    ensures RepairFrom(log, calls, from, i, disk).0.file == log.file + more
    decreases |calls| - i
  {
    hide CallAnswered, ToolMessage, PrintedLine;
    more := [];
    if i < |calls| {
      if CallAnswered(log.messages, from, CallId(calls[i])) {
        more := RepairExtends(log, calls, from, i + 1, disk);
      } else {
        var (after, ok) := Store(log, ToolMessage(AnswerId(calls[i]), INTERRUPTED), disk);
        var piece := after.file[|log.file|..];
        assert after.file == log.file + piece;
        more := piece;
        if ok {
          var rest := RepairExtends(after, calls, from, i + 1, disk);
          more := piece + rest;
        }
      }
    }
  }

  /** A repair on a file without a bad last line keeps file and memory in step. */
  lemma {:induction false} RepairStaysInSync(log: Log, calls: seq<Json>, from: nat, i: nat, disk: Disk)
    requires i <= |calls| && InSync(log) && Carries(calls, INTERRUPTED)
    ensures var (after, ok) := RepairFrom(log, calls, from, i, disk); ok ==> InSync(after)
    decreases |calls| - i
  {
    hide CallAnswered, ToolMessage, InSync, Carried, Store;
    if i < |calls| {
      if CallAnswered(log.messages, from, CallId(calls[i])) {
        RepairStaysInSync(log, calls, from, i + 1, disk);
      } else {
        StoreStaysInSync(log, ToolMessage(AnswerId(calls[i]), INTERRUPTED), disk);
        var (after, ok) := Store(log, ToolMessage(AnswerId(calls[i]), INTERRUPTED), disk);
        if ok { RepairStaysInSync(after, calls, from, i + 1, disk); }
      }
    }
  }

  lemma StoreStaysInSync(log: Log, msg: Json, disk: Disk)
    requires InSync(log) && Carried(msg)
    ensures var (after, ok) := Store(log, msg, disk); ok ==> InSync(after)
  {
    hide InSync, PrintedLine, IsMessage;
    if Accepts(log, msg) { AppendStaysInSync(log, msg); }
  }

  /** A repair that appends behind a bad last line makes every later load fail. */
  lemma {:induction false} RepairOfTornIsFatal(log: Log, calls: seq<Json>, from: nat, i: nat, disk: Disk)
    requires i <= |calls| && Carries(calls, INTERRUPTED) && Torn(log.file) && Reopened(log.file) == Some(log)
    requires RepairFrom(log, calls, from, i, disk).1
    ensures var after := RepairFrom(log, calls, from, i, disk).0; after != log ==> Load(after.file).Err?
    decreases |calls| - i
  {
    hide CallAnswered, ToolMessage, Carried, Store, Torn, Reopened, Load;
    if i < |calls| {
      if CallAnswered(log.messages, from, CallId(calls[i])) {
        RepairOfTornIsFatal(log, calls, from, i + 1, disk);
      } else {
        var msg := ToolMessage(AnswerId(calls[i]), INTERRUPTED);
        var more := RepairExtends(Store(log, msg, disk).0, calls, from, i + 1, disk);
        TornAppendIsFatal(log, msg, disk, more);
      }
    }
  }

  lemma TornAppendIsFatal(log: Log, msg: Json, disk: Disk, more: bytes)
    requires Torn(log.file) && Reopened(log.file) == Some(log) && Carried(msg)
    ensures var (after, ok) := Store(log, msg, disk); ok ==> Load(after.file + more).Err?
  {
    hide Torn, Reopened, Load, PrintedLine, IsMessage;
    if Accepts(log, msg) { AppendAfterTornTailIsFatal(log.file, msg, more); }
  }

  /** The answers that a repair gives survive printing and parsing. */
  predicate RepairCarries(messages: seq<Json>) {
    LastRound(messages) >= 0 ==> Carries(CallsOf(messages[LastRound(messages)]), INTERRUPTED)
  }

  /**
   Resuming whatever a session left behind, with a repair whose appends succeed: the conversation is complete exactly
   when its last round is completable; file and memory are in step exactly when the crash left no torn line; and the
   file loads to the repaired conversation exactly when it did not, or when nothing had to be answered.
   */
  lemma RepairLastsIff(log: Log, disk: Disk)
    requires Recoverable(log)
    requires RepairCarries(Reopened(log.file).value.messages) && Repair(Reopened(log.file).value, disk).1
    ensures var resumed := Reopened(log.file).value;
      var repaired := Repair(resumed, disk).0;
      && (ShapeOf(repaired.messages) == Complete <==> Completes(resumed.messages))
      && (InSync(repaired) <==> !Torn(log.file))
      && (Load(repaired.file).Ok? && Load(repaired.file).value.scan.messages == repaired.messages
          <==> !Torn(log.file) || NothingOwed(resumed.messages))
  {
    hide Run, Finish, ShapeOf, CallsOf, Carries, Completes, NothingOwed, Torn, RepairFrom;
    var resumed := Reopened(log.file).value;
    var repaired := Repair(resumed, disk).0;
    RepairCompletes(resumed, disk);
    RepairIsIdleIff(resumed, disk);
    ReopenedIsInSync(log.file);
    var r := LastRound(resumed.messages);
    if r >= 0 {
      var calls := CallsOf(resumed.messages[r]);
      if Torn(log.file) {
        RepairOfTornIsFatal(resumed, calls, r + 1, 0, disk);
      } else {
        RepairStaysInSync(resumed, calls, r + 1, 0, disk);
      }
    }
  }

  /** A crash after `k` bytes of a record tears the line exactly when some of it but not all is on the disk. */
  lemma CutIsTorn(log: Log, msg: Json, k: nat)
    requires InSync(log) && Accepts(log, msg) && Carried(msg) && k <= |Record(log, PrintedLine(msg))|
    ensures Torn(log.file + Record(log, PrintedLine(msg))[..k])
      <==> |Heal(log)| < k && k + 1 < |Record(log, PrintedLine(msg))|
  {
    hide Run, ConsumeLine, Print, Storable, Nesting, NoReals, GetString;
    var line := PrintedLine(msg);
    var record := Record(log, line);
    var h := |Heal(log)|;
    UnformattedIsOneLine(msg);
    LineNotEmpty(msg);
    if k < h {
      assert record[..k] == [] && log.file + [] == log.file;
    } else if k < |record| {
      var t := line[..k - h];
      assert record[..k] == Heal(log) + t;
      var scan := AfterPiece(log, t);
      LineMeans(scan, t);
      if k + 1 == |record| {
        assert t == line;
        PrintedTextReadsBack(msg, false, MAX_LINE);
      } else {
        PrefixOfPrintedFails(msg, false, k - h, MAX_LINE);
      }
      FileGrew(log, Heal(log) + t);
    } else {
      assert record[..k] == Heal(log) + line + [LF];
      var scan := AfterPiece(log, line);
      LineMeans(scan, line);
      PrintedTextReadsBack(msg, false, MAX_LINE);
    }
  }

  /**
   From the bytes: a session dies after `k` bytes of storing a message that may come next.  It reloads to what it held,
   with the message when at most its line feed is missing; and repairing that lasts exactly when the cut is not inside
   the line, or when nothing had to be answered.
   */
  lemma CrashedSessionIsRepaired(log: Log, msg: Json, k: nat, disk: Disk)
    requires InSync(log) && Accepts(log, msg) && Carried(msg) && k <= |Record(log, PrintedLine(msg))|
    requires ShapeOf(log.messages) != Broken && ShapeOf(log.messages + [msg]) != Broken
    ensures var record := Record(log, PrintedLine(msg));
      var file := log.file + record[..k];
      && Reopened(file).Some?
      && var resumed := Reopened(file).value;
      && resumed.messages == log.messages + (if k + 1 >= |record| then [msg] else [])
      && (RepairCarries(resumed.messages) && Repair(resumed, disk).1 ==>
            var repaired := Repair(resumed, disk).0;
            && (ShapeOf(repaired.messages) == Complete <==> Completes(resumed.messages))
            && (InSync(repaired) <==> k <= |Heal(log)| || k + 1 >= |record|)
            && (Load(repaired.file).Ok? && Load(repaired.file).value.scan.messages == repaired.messages
                <==> k <= |Heal(log)| || k + 1 >= |record| || NothingOwed(resumed.messages)))
  {
    hide Run, Finish, ShapeOf, Carried, RepairCarries, Repair, Torn, PrintedLine, IsMessage, InSync, Completes,
        NothingOwed;
    var record := Record(log, PrintedLine(msg));
    var file := log.file + record[..k];
    CrashInsideAppend(log, msg, k);
    CutIsTorn(log, msg, k);
    var resumed := Reopened(file).value;
    assert log.messages + [] == log.messages;
    var left := Log(file, log.messages, true, false);
    assert (log.messages + [msg])[..|log.messages|] == log.messages;
    assert Recoverable(left);
    if RepairCarries(resumed.messages) && Repair(resumed, disk).1 { RepairLastsIff(left, disk); }
  }

  /** The cut that the repair does not survive: inside the line, with a call to answer.  Every later load fails. */
  lemma TornCrashThenRepairIsFatal(log: Log, msg: Json, k: nat, disk: Disk)
    requires InSync(log) && Accepts(log, msg) && Carried(msg) && |Heal(log)| < k < |Record(log, PrintedLine(msg))| - 1
    requires RepairCarries(log.messages) && !NothingOwed(log.messages)
    ensures var resumed := Reopened(log.file + Record(log, PrintedLine(msg))[..k]);
      && resumed.Some? && resumed.value.messages == log.messages
      && (Repair(resumed.value, disk).1 ==> Load(Repair(resumed.value, disk).0.file).Err?)
  {
    hide Run, Finish, Carried, CallsOf, Torn, PrintedLine, IsMessage, InSync, Completes, NothingOwed, RepairFrom;
    var file := log.file + Record(log, PrintedLine(msg))[..k];
    CrashInsideAppend(log, msg, k);
    CutIsTorn(log, msg, k);
    var resumed := Reopened(file).value;
    assert log.messages + [] == log.messages;
    RepairIsIdleIff(resumed, disk);
    var r := LastRound(resumed.messages);
    if Repair(resumed, disk).1 && r >= 0 {
      RepairOfTornIsFatal(resumed, CallsOf(resumed.messages[r]), r + 1, 0, disk);
    }
  }
}
