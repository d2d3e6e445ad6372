/** The agent turn object of src/mua/agent.c, its callbacks and its repair pass. */
module Agent {
  import opened Bytes
  import opened CJsonSpec
  import opened CJsonLaws
  import opened SessionSpec
  import opened AgentSpec
  import opened AgentRepair
  import Laws = AgentLaws
  import AgentSession
  import Session

  /** AgentTurn.  The ghost fields record what the callbacks did to the outside. */
  class AgentTurn {
    const session: Session.SessionState
    const stepCap: nat
    const contextLength: int
    const contextPct: int
    const warnPct: int
    var step: nat
    var tokens: int
    var warned: bool
    var stream: bool
    var exec: bool
    var timer: bool
    var calls: seq<Json>
    var toolIndex: nat
    var inDriver: bool
    var cancelRequested: bool
    var canceling: bool
    var failing: bool
    var finished: bool
    ghost var live: bool
    ghost var endings: seq<Ending>
    ghost var requests: nat
    ghost var ran: nat
    ghost var lateRuns: nat

    ghost function Abs(): Turn
      reads this, session
    {
      Turn(session.Abs(), stepCap, contextLength, contextPct, warnPct, step, tokens, warned, stream, live, exec, timer,
           calls, toolIndex, cancelRequested, canceling, failing, finished, endings, requests, ran, lateRuns)
    }

    ghost predicate Valid()
      reads this, session
    {
      session.Valid() && IdsAreText(calls)
    }

    /** agent_turn_start, behind the append of the user's message: the step timer is armed. */
    constructor (session: Session.SessionState, stepCap: nat, contextLength: int, contextPct: int, warnPct: int)
      requires session.Valid()
      ensures Valid() && !inDriver && this.session == session
      ensures Abs() == Started(session.Abs(), stepCap, contextLength, contextPct, warnPct)
    {
      this.session, this.stepCap := session, stepCap;
      this.contextLength, this.contextPct, this.warnPct := contextLength, contextPct, warnPct;
      step, tokens, warned := 0, 0, false;
      stream, exec, timer, inDriver := false, false, true, false;
      calls, toolIndex := [], 0;
      cancelRequested, canceling, failing, finished := false, false, false, false;
      live, endings, requests, ran, lateRuns := false, [], 0, 0, 0;
    }

    // ----- single updates; the callbacks below are proved without looking at fields again -----

    /** The fields are what the abstract turn says they are. */
    lemma Fields()
      ensures Abs().finished == finished && Abs().stream == stream && Abs().exec == exec && Abs().timer == timer
      ensures Abs().canceling == canceling && Abs().cancelRequested == cancelRequested && Abs().failing == failing
      ensures Abs().toolIndex == toolIndex && Abs().calls == calls
      ensures Abs().step == step && Abs().tokens == tokens && Abs().warned == warned
      ensures Abs().stepCap == stepCap && Abs().contextLength == contextLength
      ensures Abs().contextPct == contextPct && Abs().warnPct == warnPct
    {
    }

    method SetExec(on: bool)
      requires Valid()
      modifies this`exec
      ensures Valid() && Abs() == old(Abs()).(exec := on)
    {
      exec := on;
    }

    method SetCanceling()
      requires Valid()
      modifies this`canceling
      ensures Valid() && Abs() == old(Abs()).(canceling := true)
    {
      canceling := true;
    }

    method SetCalls(message: Json)
      requires Valid() && Storable(message)
      modifies this`calls, this`toolIndex
      ensures Valid() && Abs() == old(Abs()).(calls := CallsOf(message), toolIndex := 0)
    {
      hide CallsOf, Storable, IdsAreText;
      CallIdsAreText(message);
      calls, toolIndex := CallsOf(message), 0;
    }

    method StopAppending()
      requires Valid()
      modifies this`failing
      ensures Valid() && Abs() == old(Abs()).(failing := true)
    {
      failing := true;
    }

    method NextCall()
      requires Valid()
      modifies this`toolIndex
      ensures Valid() && Abs() == old(Abs()).(toolIndex := old(toolIndex) + 1)
    {
      toolIndex := toolIndex + 1;
    }

    ghost method CountRequest()
      requires Valid()
      modifies this`requests
      ensures Valid() && Abs() == old(Abs()).(requests := old(Abs()).requests + 1)
    {
      requests := requests + 1;
    }

    ghost method CountRun()
      requires Valid()
      modifies this`ran, this`lateRuns
      ensures Valid() && Abs() == Ran(old(Abs()))
    {
      ran, lateRuns := ran + 1, lateRuns + if canceling then 1 else 0;
    }

    // ----- the callbacks -----

    /** finish_turn. */
    method Finish(ending: Ending)
      requires Valid()
      modifies this`finished, this`timer, this`endings
      ensures Valid() && Abs() == FinishTurn(old(Abs()), ending)
    {
      hide IdsAreText;
      if finished { return; }
      finished, timer, endings := true, false, endings + [ending];
    }

    /** agent_turn_cancel. */
    method Cancel()
      requires Valid()
      modifies this`cancelRequested, this`canceling
      ensures Valid() && Abs() == AgentSpec.Cancel(old(Abs()))
    {
      hide IdsAreText;
      if finished { return; }
      if stream {
        cancelRequested := true;
        return;
      }
      canceling := true;
    }

    method CancelWhen(cancel: bool)
      requires Valid()
      modifies this`cancelRequested, this`canceling
      ensures Valid() && Abs() == CancelIf(old(Abs()), cancel)
    {
      hide Abs, Valid, AgentSpec.Cancel;
      if cancel { Cancel(); }
    }

    /** session_append on this disk. */
    method Store(msg: Json, disk: Disk) returns (ok: bool)
      requires Valid() && Storable(msg)
      modifies session
      ensures Valid() && (Abs(), ok) == (old(Abs()).(log := AgentSpec.Store(old(Abs()).log, msg, disk).0),
                                         AgentSpec.Store(old(Abs()).log, msg, disk).1)
    {
      hide AgentSpec.Store, Storable, IdsAreText;
      ok := AppendTo(session, msg, disk);
    }

    /** append_tool_message for the current call. */
    method AppendToolMessage(content: bytes, disk: Disk) returns (ok: bool)
      requires Valid() && toolIndex < |calls| && IsCString(content)
      modifies session
      ensures Valid() && Abs().toolIndex < |Abs().calls| && (Abs(), ok) == AnswerCall(old(Abs()), content, disk)
    {
      CurrentIdIsText();
      hide AgentSpec.Store, ToolMessage, Storable, IsCString, Abs, Valid, AnswerId;
      Fields();
      var id := AnswerId(calls[toolIndex]);
      ToolMessageIsText(id, content);
      ok := Store(ToolMessage(id, content), disk);
      Fields();
    }

    lemma CurrentIdIsText()
      requires Valid() && toolIndex < |calls|
      ensures IsCString(AnswerId(calls[toolIndex]))
    {
    }

    /** tool_completed; `cancel` says whether the result callback cancels the turn. */
    method ToolCompleted(content: bytes, cancel: bool, disk: Disk)
      requires Valid() && toolIndex < |calls| && IsCString(content)
      modifies this`failing, this`toolIndex, this`cancelRequested, this`canceling, session
      ensures Valid() && old(Abs()).toolIndex < |old(Abs()).calls|
      ensures Abs() == AgentSpec.ToolCompleted(old(Abs()), content, cancel, disk)
    {
      hide AnswerCall, IsCString, Abs, Valid, CancelIf;
      Fields();
      var ok := AppendToolMessage(content, disk);
      if !ok {
        StopAppending();
        return;
      }
      CancelWhen(cancel);
      Fields();
      NextCall();
    }

    /**
     agent_tool_done.  Inside drive_tools it only records the result; the flag that says so bounds the stack,
     as the termination measure shows.
     */
    method AgentToolDone(content: bytes, cancel: bool, script: seq<ToolStep>, starts: bool, disk: Disk)
      requires Valid() && (finished || toolIndex < |calls|) && IsCString(content) && ScriptIsText(script)
      modifies this, session
      ensures Valid() && inDriver == old(inDriver)
      ensures old(Abs()).finished || old(Abs()).toolIndex < |old(Abs()).calls|
      ensures Abs() == if old(inDriver) && !old(finished)
                       then AgentSpec.ToolCompleted(old(Abs()).(exec := false), content, cancel, disk)
                       else AgentSpec.ToolDone(old(Abs()), content, cancel, script, starts, disk)
      decreases if inDriver then 0 else 3, 0
    {
      hide AgentSpec.ToolCompleted, AgentSpec.DriveTools, IsCString, ScriptIsText, Abs, Valid;
      Fields();
      SetExec(false);
      if finished { return; }
      ToolCompleted(content, cancel, disk);
      Fields();
      if !inDriver {
        DriveTools(script, starts, disk);
      }
    }

    /** start_tool: `running` when the tool returned a handle. */
    method StartTool(s: ToolStep, disk: Disk) returns (running: bool)
      requires Valid() && toolIndex < |calls| && inDriver && !exec && !finished
      requires s.RunsOn? || IsCString(s.content)
      modifies this, session
      ensures Valid() && inDriver && running == s.RunsOn? && !exec && !finished
      ensures old(Abs()).toolIndex < |old(Abs()).calls|
      ensures Abs().(exec := running) == AgentSpec.StartTool(old(Abs()), s, disk)
      decreases 1, 0
    {
      hide AgentSpec.ToolCompleted, IsCString, AgentSpec.DriveTools, CancelIf, Ran, Abs, Valid;
      Fields();
      CancelWhen(!s.Rejected? && s.cancelInGate);
      if s.RunsInline? || s.RunsOn? { CountRun(); }
      ghost var begun := Abs();
      Fields();
      running := s.RunsOn?;
      if s.RunsInline? {
        assert begun.(exec := false) == begun;
        AgentToolDone(s.content, s.cancelAfter, [], false, disk);
      } else if !s.RunsOn? {
        ToolCompleted(s.content, s.cancelAfter, disk);
      }
      Fields();
      ghost var after := Abs();
      assert after.(exec := false) == after;
      GateStep(old(Abs()), s, disk);
    }

    /** One turn of finish_with_synthetics' loop. */
    method AnswerInterrupted(disk: Disk) returns (ok: bool)
      requires Valid() && toolIndex < |calls|
      modifies this`toolIndex, session
      ensures Valid() && toolIndex <= |calls| && toolIndex == old(toolIndex) + if ok then 1 else 0
      ensures old(Abs()).toolIndex < |old(Abs()).calls| && Abs().toolIndex <= |Abs().calls|
      ensures Synthesize(old(Abs()), disk) == if ok then Synthesize(Abs(), disk) else Abs()
    {
      hide AnswerCall, Synthesize, IsCString, Abs, Valid;
      InterruptedIsText();
      Fields();
      SynthesizeStep(Abs(), disk);
      ok := AppendToolMessage(INTERRUPTED, disk);
      Fields();
      if ok { NextCall(); }
      Fields();
    }

    /** finish_with_synthetics. */
    method FinishWithSynthetics(disk: Disk)
      requires Valid() && toolIndex <= |calls|
      modifies this`toolIndex, this`finished, this`timer, this`endings, session
      ensures Valid() && old(Abs()).toolIndex <= |old(Abs()).calls|
      ensures Abs() == FinishTurn(Synthesize(old(Abs()), disk), TurnInterrupted)
    {
      hide AnswerCall, Synthesize, IsCString, FinishTurn, Abs, Valid;
      ghost var start := Abs();
      var ok := true;
      Fields();
      while ok && toolIndex < |calls|
        invariant Valid() && toolIndex <= |calls| && calls == old(calls)
        invariant Abs().toolIndex <= |Abs().calls|
        invariant Synthesize(start, disk) == if ok then Synthesize(Abs(), disk) else Abs()
        decreases |calls| - toolIndex, ok
      {
        ok := AnswerInterrupted(disk);
      }
      Fields();
      if ok { SynthesizeStep(Abs(), disk); }
      Finish(TurnInterrupted);
    }

    /** next_step. */
    method NextStep(starts: bool)
      requires Valid()
      modifies this`step, this`timer, this`finished, this`endings
      ensures Valid() && Abs() == AgentSpec.NextStep(old(Abs()), starts)
    {
      hide IdsAreText, FinishTurn, Reached;
      step := step + 1;
      ReachedIff(Abs(), contextPct);
      if step >= stepCap {
        Finish(TurnStepCap);
        return;
      }
      if contextLength > 0 && tokens > 0 {
        var budget := contextLength * contextPct / 100;
        if tokens >= budget {
          Finish(TurnContextLimit);
          return;
        }
      }
      if !starts {
        Finish(TurnFailed);
        return;
      }
      timer := true;
    }

    /** The loop of drive_tools: calls are started until one runs on, none is left, or the turn must end. */
    method RunTools(script: seq<ToolStep>, disk: Disk)
      requires Valid() && toolIndex <= |calls| && !exec && !finished && ScriptIsText(script)
      modifies this, session
      ensures Valid() && !inDriver && !finished && toolIndex <= |calls|
      ensures old(Abs()).toolIndex <= |old(Abs()).calls| && !old(Abs()).exec
      ensures Abs() == Drive(old(Abs()), script, disk)
      decreases 2, 0
    {
      hide AgentSpec.StartTool, IsCString, Drive, Abs, Valid;
      ghost var start := Abs();
      SetDriver(true);
      var i := 0;
      Fields();
      assert script[0..] == script;
      while toolIndex < |calls| && !canceling && !failing
        invariant Valid() && inDriver && toolIndex <= |calls| && !exec && !finished
        invariant Abs().toolIndex <= |Abs().calls| && !Abs().exec
        invariant i <= |script| && Drive(start, script, disk) == Drive(Abs(), script[i..], disk)
        decreases |calls| - toolIndex, !failing
      {
        var s := if i < |script| then script[i] else RunsOn(false);
        Fields();
        ghost var rest := script[i..];
        DriveStep(Abs(), rest, disk);
        var running := StartTool(s, disk);
        Fields();
        if running {
          SetExec(true);
          SetDriver(false);
          Fields();
          return;
        }
        ghost var after := Abs();
        assert after.(exec := false) == after;
        assert i < |script| ==> rest[1..] == script[i + 1..];
        i := i + 1;
      }
      Fields();
      DriveEnd(Abs(), script[i..], disk);
      SetDriver(false);
    }

    /** drive_tools. */
    method DriveTools(script: seq<ToolStep>, starts: bool, disk: Disk)
      requires Valid() && toolIndex <= |calls| && !exec && !finished && ScriptIsText(script)
      modifies this, session
      ensures Valid() && !inDriver
      ensures old(Abs()).toolIndex <= |old(Abs()).calls| && !old(Abs()).exec
      ensures Abs() == AgentSpec.DriveTools(old(Abs()), script, starts, disk)
      decreases 2, 1
    {
      hide AgentSpec.NextStep, Synthesize, ScriptIsText, FinishTurn, Drive, Abs, Valid;
      RunTools(script, disk);
      Fields();
      if exec { return; }
      if failing {
        Finish(TurnFailed);
        return;
      }
      if canceling {
        FinishWithSynthetics(disk);
        return;
      }
      NextStep(starts);
    }

    /** The flag that keeps a tool's inline completion from driving the loop again. */
    method SetDriver(on: bool)
      requires Valid()
      modifies this`inDriver
      ensures Valid() && inDriver == on && Abs() == old(Abs())
    {
      inDriver := on;
    }

    /** maybe_warn_context. */
    method WarnContext(cancel: bool)
      requires Valid()
      modifies this`warned, this`cancelRequested, this`canceling
      ensures Valid() && Abs() == AgentSpec.WarnContext(old(Abs()), cancel)
    {
      hide IdsAreText, Reached, CancelIf;
      ReachedIff(Abs(), warnPct);
      if contextLength <= 0 || warned || warnPct <= 0 || tokens <= 0 { return; }
      if tokens < contextLength * warnPct / 100 { return; }
      warned := true;
      CancelWhen(cancel);
    }

    /** The start of provider_on_done: the stream is gone, and the usage it reported is kept. */
    method StreamGone(total: int)
      requires Valid()
      modifies this`stream, this`live, this`tokens
      ensures Valid()
      ensures Abs() == old(Abs()).(stream := false, live := false, tokens := if total > 0 then total
          else old(Abs()).tokens)
    {
      hide IdsAreText;
      stream, live := false, false;
      if total > 0 { tokens := total; }
    }

    /** provider_on_done. */
    method OnDone(message: Json, total: int, cancel: bool, script: seq<ToolStep>, starts: bool, disk: Disk)
      requires Valid() && !exec && !inDriver && !finished && Storable(message) && ScriptIsText(script)
      modifies this, session
      ensures Valid() && !inDriver && !old(Abs()).exec
      ensures Abs() == StreamCompleted(old(Abs()), message, total, cancel, script, starts, disk)
    {
      hide MessageLanded, AgentSpec.WarnContext, Storable, ScriptIsText, Abs, Valid;
      Fields();
      StreamGone(total);
      WarnContext(cancel);
      LandMessage(message, script, starts, disk);
    }

    /** The middle of provider_on_done: the message is stored, or the turn fails. */
    method LandMessage(message: Json, script: seq<ToolStep>, starts: bool, disk: Disk)
      requires Valid() && !exec && !inDriver && !finished && Storable(message) && ScriptIsText(script)
      modifies this, session
      ensures Valid() && !inDriver && !old(Abs()).exec
      ensures Abs() == MessageLanded(old(Abs()), message, script, starts, disk)
    {
      hide AgentSpec.Store, RoundOpened, CallsOf, Storable, ScriptIsText, FinishTurn, Abs, Valid;
      Fields();
      var ok := Store(message, disk);
      Fields();
      if !ok {
        Finish(TurnFailed);
      } else if |CallsOf(message)| == 0 {
        Finish(TurnDone);
      } else {
        OpenRound(message, script, starts, disk);
      }
    }

    /** The end of provider_on_done: the calls of the stored message are answered or run. */
    method OpenRound(message: Json, script: seq<ToolStep>, starts: bool, disk: Disk)
      requires Valid() && !exec && !finished && !inDriver && Storable(message) && ScriptIsText(script)
      modifies this, session
      ensures Valid() && !inDriver && !old(Abs()).exec
      ensures Abs() == RoundOpened(old(Abs()), message, script, starts, disk)
    {
      hide AgentSpec.DriveTools, Synthesize, CallsOf, Storable, ScriptIsText, FinishTurn, Abs, Valid;
      Fields();
      SetCalls(message);
      Fields();
      if cancelRequested {
        SetCanceling();
        Fields();
        FinishWithSynthetics(disk);
        return;
      }
      DriveTools(script, starts, disk);
    }

    /** provider_on_error. */
    method OnError()
      requires Valid()
      modifies this`stream, this`live, this`finished, this`timer, this`endings
      ensures Valid() && Abs() == StreamFailed(old(Abs()))
    {
      stream, live := false, false;
      assert Abs() == old(Abs()).(stream := false, live := false);
      Fields();
      hide Abs, Valid, FinishTurn;
      Finish(if cancelRequested then TurnInterrupted else TurnFailed);
    }

    /** step_timer_cb. */
    method OnTimer(request: Request)
      requires Valid()
      modifies this`timer, this`requests, this`stream, this`live, this`finished, this`endings
      ensures Valid() && Abs() == TimerFired(old(Abs()), request)
    {
      hide FinishTurn, RequestIssued, IdsAreText;
      timer := false;
      assert Abs() == old(Abs()).(timer := false);
      Fields();
      hide Abs, Valid;
      if canceling || cancelRequested {
        Finish(TurnInterrupted);
        return;
      }
      IssueRequest(request);
    }

    /** The request is under way. */
    method Stream()
      requires Valid()
      modifies this`stream, this`live
      ensures Valid() && Abs() == old(Abs()).(stream := true, live := true)
    {
      hide IdsAreText;
      stream, live := true, true;
    }

    /** The request fails before openrouter_stream returns; its handle is stored all the same. */
    method FailInline()
      requires Valid()
      modifies this`stream, this`live, this`finished, this`timer, this`endings
      ensures Valid() && Abs() == StreamFailed(old(Abs())).(stream := true)
    {
      hide IdsAreText, StreamFailed;
      OnError();
      stream := true;
    }

    lemma LiveGoes(t: Turn)
      ensures StreamFailed(t.(live := true)) == StreamFailed(t)
    {
    }

    /** issue_request, and what step_timer_cb does when it fails. */
    method IssueRequest(request: Request)
      requires Valid()
      modifies this`timer, this`requests, this`stream, this`live, this`finished, this`endings
      ensures Valid() && Abs() == RequestIssued(old(Abs()), request)
    {
      hide Abs, Valid, FinishTurn, StreamFailed;
      CountRequest();
      LiveGoes(Abs());
      match request
      case NotIssued => Finish(TurnFailed);
      case Streaming => Stream();
      case FailsInline => FailInline();
    }

    /** agent_turn_cancel from outside, and the provider's answer to it. */
    method OnCancel(failsInline: bool)
      requires Valid() && Laws.Inv(Abs())
      modifies this`cancelRequested, this`canceling, this`stream, this`live, this`finished, this`timer, this`endings
      ensures Valid() && Abs() == Next(old(Abs()), CancelEvent(failsInline), _ => 0)
    {
      hide Abs, Valid, FinishTurn, StreamFailed, Laws.Sound, Laws.Over;
      Fields();
      var reported := failsInline && !finished && stream && !cancelRequested;
      Cancel();
      if reported { OnError(); }
    }

    /** Any callback that can fire, and a cancel at any time: the turn does what Next says and stays sound. */
    method Step(e: Event, disk: Disk)
      requires Valid() && !inDriver && Laws.Inv(Abs()) && Enabled(Abs(), e) && EventIsText(e)
      modifies this, session
      ensures Valid() && !inDriver && Laws.Inv(Abs()) && (e.DoneEvent? ==> !old(Abs()).exec)
      ensures e.ToolEvent? ==> old(Abs()).finished || old(Abs()).toolIndex < |old(Abs()).calls|
      ensures Abs() == Next(old(Abs()), e, disk)
    {
      Laws.EveryStepKeeps(Abs(), e, disk);
      Fields();
      Pending();
      hide Abs, Valid, Laws.Inv, Storable, IsCString, ScriptIsText, StreamCompleted, AgentSpec.ToolDone, TimerFired,
        StreamFailed, CancelIf, AgentSpec.Cancel;
      match e {
        case TimerEvent(request) => OnTimer(request);
        case TextEvent(cancel) => CancelWhen(cancel);
        case DoneEvent(message, total, cancel, script, starts) => OnDone(message, total, cancel, script, starts, disk);
        case ErrorEvent => OnError();
        case ToolEvent(content, cancel, script, starts) => AgentToolDone(content, cancel, script, starts, disk);
        case CancelEvent(inline) => OnCancel(inline);
      }
    }

    /** What the invariant says of a turn with a stream or a tool. */
    lemma Pending()
      requires Laws.Inv(Abs())
      ensures Abs().live ==> !Abs().exec && !Abs().finished
      ensures Abs().exec ==> Abs().toolIndex < |Abs().calls|
    {
    }
  }

  /** What this callback brings in is C strings. */
  predicate EventIsText(e: Event) {
    match e
    case DoneEvent(message, _, _, script, _) => Storable(message) && ScriptIsText(script)
    case ToolEvent(content, _, script, _) => IsCString(content) && ScriptIsText(script)
    case _ => true
  }

  /** agent_turn_start: the user's message goes to the session first; no turn when that or the timer fails. */
  method AgentTurnStart(session: Session.SessionState, p: AgentSession.Act) returns (turn: AgentTurn?)
    requires session.Valid() && p.Prompt?
    modifies session
    ensures session.Valid() && (turn != null ==> turn.Valid() && turn.session == session && !turn.inDriver)
    ensures AgentSession.Prompted(old(session.Abs()), p)
      == if turn == null then AgentSession.Between(session.Abs()) else AgentSession.InTurn(turn.Abs())
  {
    hide AgentSpec.Store, Storable, AgentSession.UserMessage;
    if p.text == [] { return null; }
    UserMessageIsText(p.text);
    var ok := AppendTo(session, AgentSession.UserMessage(p.text), p.disk);
    if !ok || !p.timerStarts { return null; }
    turn := new AgentTurn(session, p.stepCap, p.contextLength, p.contextPct, p.warnPct);
  }

  lemma UserMessageIsText(text: bytes)
    ensures Storable(AgentSession.UserMessage(text))
  {
    var ms := AgentSession.UserMessage(text).members;
    assert StorableMembers(ms[2..]) && StorableMembers(ms[1..]);
  }

  // ----- repairing a resumed session -----

  /** last_tool_call_round. */
  method LastToolCallRound(sess: Session.SessionState) returns (round: int)
    requires sess.Valid()
    ensures round == LastRound(sess.messages)
  {
    hide IsRound;
    var i := sess.count;
    assert sess.messages[..i] == sess.messages;
    while i > 0
      invariant i <= sess.count && LastRound(sess.messages[..i]) == LastRound(sess.messages)
    {
      var front := sess.messages[..i];
      assert front[..|front| - 1] == sess.messages[..i - 1];
      if IsRound(sess.messages[i - 1]) { return i - 1; }
      i := i - 1;
    }
    round := -1;
  }

  /** call_answered. */
  method FindAnswer(sess: Session.SessionState, from: nat, id: Option<bytes>) returns (found: bool)
    requires sess.Valid()
    ensures found == CallAnswered(sess.messages, from, id)
  {
    hide GetString;
    var i := from;
    while i < sess.count
      invariant forall j :: from <= j < i && j < sess.count ==> id.None? || !Answers(sess.messages[j], id.value)
    {
      if id.Some? && Answers(sess.messages[i], id.value) { return true; }
      i := i + 1;
    }
    found := false;
  }

  /** agent_repair_session. */
  method RepairSession(sess: Session.SessionState, disk: Disk) returns (ok: bool)
    requires sess.Valid() && forall i :: 0 <= i < |sess.messages| ==> Storable(sess.messages[i])
    modifies sess
    ensures sess.Valid() && (sess.Abs(), ok) == Repair(old(sess.Abs()), disk)
  {
    hide CallsOf, GetString, Storable, AgentSpec.Store, IsRound, CallAnswered, IsCString, AnswerId, ToolMessage,
        RepairFrom,
      IdsAreText;
    var round := LastToolCallRound(sess);
    if round < 0 { return true; }
    var calls := CallsOf(sess.messages[round]);
    CallIdsAreText(sess.messages[round]);
    ghost var start := sess.Abs();
    var i := 0;
    while i < |calls|
      invariant i <= |calls| && sess.Valid()
      invariant RepairFrom(start, calls, round + 1, 0, disk) == RepairFrom(sess.Abs(), calls, round + 1, i, disk)
    {
      RepairStep(sess.Abs(), calls, round + 1, i, disk);
      var answered := FindAnswer(sess, round + 1, CallId(calls[i]));
      if !answered {
        IdAt(calls, i);
        ToolMessageIsText(AnswerId(calls[i]), INTERRUPTED);
        ok := AppendTo(sess, ToolMessage(AnswerId(calls[i]), INTERRUPTED), disk);
        if !ok { return; }
      }
      i := i + 1;
    }
    RepairDone(sess.Abs(), calls, round + 1, disk);
    ok := true;
  }

  method AppendTo(sess: Session.SessionState, msg: Json, disk: Disk) returns (ok: bool)
    requires sess.Valid() && Storable(msg)
    modifies sess
    ensures sess.Valid() && (sess.Abs(), ok) == AgentSpec.Store(old(sess.Abs()), msg, disk)
  {
    hide Record, PrintedLine, Print, Storable, Accepts;
    var written := Taken(disk, sess.Abs(), |Record(sess.Abs(), PrintedLine(msg))|);
    ok := sess.Append(Some(msg), written);
  }

  lemma IdAt(calls: seq<Json>, i: nat)
    requires IdsAreText(calls) && i < |calls|
    ensures IsCString(AnswerId(calls[i])) && IsCString(INTERRUPTED)
  {
    InterruptedIsText();
  }

  lemma RepairStep(log: Log, calls: seq<Json>, from: nat, i: nat, disk: Disk)
    requires i < |calls|
    ensures RepairFrom(log, calls, from, i, disk)
            == if CallAnswered(log.messages, from, CallId(calls[i])) then RepairFrom(log, calls, from, i + 1, disk)
               else
                 var (after, ok) := Store(log, ToolMessage(AnswerId(calls[i]), INTERRUPTED), disk);
                 if ok then RepairFrom(after, calls, from, i + 1, disk) else (after, false)
  {
    hide Store, ToolMessage, CallAnswered;
  }

  lemma RepairDone(log: Log, calls: seq<Json>, from: nat, disk: Disk)
    ensures RepairFrom(log, calls, from, |calls|, disk) == (log, true)
  {
  }

  // ----- text -----

  /** Ids and contents are C strings. */
  predicate IdsAreText(calls: seq<Json>) {
    forall i :: 0 <= i < |calls| ==> IsCString(AnswerId(calls[i]))
  }

  predicate ScriptIsText(script: seq<ToolStep>) {
    forall i :: 0 <= i < |script| ==> script[i].RunsOn? || IsCString(script[i].content)
  }

  lemma InterruptedIsText()
    ensures IsCString(INTERRUPTED)
  {
  }

  lemma ToolMessageIsText(id: bytes, content: bytes)
    requires IsCString(id) && IsCString(content)
    ensures Storable(ToolMessage(id, content))
  {
    var ms := ToolMessage(id, content).members;
    assert StorableMembers(ms[3..]) && StorableMembers(ms[2..]) && StorableMembers(ms[1..]);
  }

  lemma {:induction false} LookupIsText(members: seq<Member>, key: bytes)
    requires StorableMembers(members) && Lookup(members, key).Some?
    ensures Storable(Lookup(members, key).value)
  {
    if members[0].key != key { LookupIsText(members[1..], key); }
  }

  lemma {:induction false} ItemIsText(items: seq<Json>, i: nat)
    requires StorableItems(items) && i < |items|
    ensures Storable(items[i])
  {
    if i > 0 { ItemIsText(items[1..], i - 1); }
  }

  lemma CallIdsAreText(message: Json)
    requires Storable(message)
    ensures IdsAreText(CallsOf(message))
  {
    hide StorableItems, StorableMembers, Lookup;
    if CallsOf(message) != [] {
      LookupIsText(message.members, KEY_CALLS);
      forall i | 0 <= i < |CallsOf(message)| ensures IsCString(AnswerId(CallsOf(message)[i])) {
        var call := CallsOf(message)[i];
        ItemIsText(CallsOf(message), i);
        IdIsText(call);
      }
    }
  }

  lemma IdIsText(call: Json)
    requires Storable(call)
    ensures IsCString(AnswerId(call))
  {
    hide StorableMembers, Lookup;
    if CallId(call).Some? { LookupIsText(call.members, KEY_ID); }
  }

  lemma ReachedIff(t: Turn, percent: int)
    ensures Reached(t, percent)
            <==> t.contextLength > 0 && t.tokens > 0 && t.tokens >= t.contextLength * percent / 100
  {
  }

  lemma GateStep(t: Turn, s: ToolStep, disk: Disk)
    requires t.toolIndex < |t.calls|
    ensures var gated := CancelIf(t, !s.Rejected? && s.cancelInGate);
            var begun := if s.RunsInline? || s.RunsOn? then Ran(gated) else gated;
            StartTool(t, s, disk)
            == if s.RunsOn? then begun.(exec := true)
                else AgentSpec.ToolCompleted(begun, s.content, s.cancelAfter, disk)
  {
    hide AgentSpec.ToolCompleted, Ran;
  }

  lemma SynthesizeStep(t: Turn, disk: Disk)
    requires t.toolIndex <= |t.calls|
    ensures t.toolIndex == |t.calls| ==> Synthesize(t, disk) == t
    ensures t.toolIndex < |t.calls| && !AnswerCall(t, INTERRUPTED, disk).1 ==>
              Synthesize(t, disk) == AnswerCall(t, INTERRUPTED, disk).0
    ensures t.toolIndex < |t.calls| && AnswerCall(t, INTERRUPTED, disk).1 ==>
              var after := AnswerCall(t, INTERRUPTED, disk).0;
              Synthesize(t, disk) == Synthesize(after.(toolIndex := after.toolIndex + 1), disk)
  {
    hide AnswerCall;
  }

  /** One turn of drive_tools' loop. */
  lemma DriveStep(t: Turn, script: seq<ToolStep>, disk: Disk)
    requires t.toolIndex < |t.calls| && !t.exec && !t.canceling && !t.failing
    ensures var s := if script == [] then RunsOn(false) else script[0];
            var after := StartTool(t, s, disk);
            Drive(t, script, disk) == if after.exec then after else Drive(after, script[1..], disk)
  {
    hide StartTool;
  }

  lemma DriveEnd(t: Turn, script: seq<ToolStep>, disk: Disk)
    requires t.toolIndex <= |t.calls| && !t.exec && (t.toolIndex == |t.calls| || t.canceling || t.failing)
    ensures Drive(t, script, disk) == t
  {
  }
}
