/**
 What each callback of a turn comes to: when the turn ends and how, which answers a round of tool calls gets, and which
 tools run.  Nothing here is said in terms of the state machine's own steps.
 */
module AgentEndings {
  import opened Bytes
  import opened CJsonSpec
  import opened SessionSpec
  import opened AgentSpec
  import opened AgentLaws

  // ----- a round of tool calls -----

  /** The answers to the calls from the `k`th on. */
  function Answers(calls: seq<Json>, k: nat, contents: seq<bytes>): seq<Json>
    requires k + |contents| <= |calls|
  {
    seq(|contents|, i requires 0 <= i < |contents| => ToolMessage(AnswerId(calls[k + i]), contents[i]))
  }

  /** What the first `d` steps of the script answer, and `m` answers that nothing has run for. */
  function Contents(script: seq<ToolStep>, d: nat, m: nat): (contents: seq<bytes>)
    requires d <= |script| && forall i :: 0 <= i < d ==> !script[i].RunsOn?
    ensures |contents| == d + m
  {
    seq(d + m, i requires 0 <= i < d + m => if i < d then script[i].content else INTERRUPTED)
  }

  /** The gate or the result callback cancels the turn at this step. */
  predicate Cancels(s: ToolStep) {
    match s
    case Rejected(_, after) => after
    case Refused(_, gate, after) => gate || after
    case RunsInline(_, gate, after) => gate || after
    case RunsOn(gate) => gate
  }

  /** The tools that start in the first `n` steps; behind its end the script's tools run on. */
  function ToolsRun(script: seq<ToolStep>, n: nat): nat {
    if n == 0 then 0
    else ToolsRun(script, n - 1)
         + if n > |script| || script[n - 1].RunsInline? || script[n - 1].RunsOn? then 1 else 0
  }

  /** The session's last append was refused, and it was of this message. */
  ghost predicate Refuses(log: Log, msg: Json, disk: Disk) {
    exists before: Log :: before.messages == log.messages && Store(before, msg, disk) == (log, false)
  }

  /** An answer, as a provider reads it. */
  lemma ToolMessageReads(id: bytes, content: bytes)
    ensures var msg := ToolMessage(id, content);
      && GetString(msg, Ascii("role")) == Some(Ascii("tool"))
      && GetString(msg, Ascii("tool_call_id")) == Some(id)
      && GetString(msg, Ascii("content")) == Some(content)
    ensures INTERRUPTED == Ascii("[interrupted]")
  {
    var ms := ToolMessage(id, content).members;
    assert KEY_ROLE == Ascii("role") && ROLE_TOOL == Ascii("tool") && KEY_CALL_ID == Ascii("tool_call_id")
      && KEY_CONTENT == Ascii("content");
    assert Lookup(ms[1..], KEY_CALL_ID) == Some(String(id));
    assert Lookup(ms[2..], KEY_CONTENT) == Some(String(content));
    assert Lookup(ms[1..], KEY_CONTENT) == Some(String(content));
  }

  /**
   The round, from its `k`th call on: the script's first `d` steps are answered in order, with their own contents and
   under their calls' ids, and then `m` calls as interrupted.
   */
  ghost predicate Answered(base: seq<Json>, calls: seq<Json>, k: nat, script: seq<ToolStep>, d: nat, m: nat, r: Turn) {
    && r.calls == calls && r.toolIndex == k + d + m <= |calls|
    && d <= |script| && (forall i :: 0 <= i < d ==> !script[i].RunsOn?)
    && (forall i :: 0 <= i < d - 1 ==> !Cancels(script[i]))
    && r.log.messages == base + Answers(calls, k, Contents(script, d, m))
  }

  /** A step's answer was refused, and no other step's. */
  ghost predicate Failing(calls: seq<Json>, script: seq<ToolStep>, d: nat, r: Turn, disk: Disk) {
    && r.toolIndex < |calls| && d < |script| && !script[d].RunsOn?
    && Refuses(r.log, ToolMessage(AnswerId(calls[r.toolIndex]), script[d].content), disk)
  }

  /** Where the loop over the calls stops; `canceled` says whether the turn is being canceled before it. */
  ghost predicate Stops(calls: seq<Json>, script: seq<ToolStep>, canceled: bool, d: nat, r: Turn, disk: Disk) {
    && d <= |script| && (d > 0 ==> !canceled)
    && (r.exec ==> !r.failing && r.toolIndex < |calls| && (d == |script| || script[d].RunsOn?))
    && (r.exec || r.failing ==> !canceled && (d > 0 ==> !Cancels(script[d - 1])))
    && (r.failing ==> Failing(calls, script, d, r, disk))
    && (!r.exec && !r.failing ==>
          && (r.canceling <==> canceled || (d > 0 && Cancels(script[d - 1])))
          && (!r.canceling ==> r.toolIndex == |calls|))
  }

  /** What a round changes. */
  predicate Frame(t: Turn, r: Turn) {
    r == t.(log := r.log, toolIndex := r.toolIndex, exec := r.exec, failing := r.failing, canceling := r.canceling,
            ran := r.ran, lateRuns := r.lateRuns)
  }

  lemma FrameOn(a: Turn, b: Turn, c: Turn)
    requires Frame(a, b) && Frame(b, c)
    ensures Frame(a, c)
  {
  }

  lemma CancelDoes(t: Turn, cancel: bool)
    requires !t.finished && !t.stream
    ensures CancelIf(t, cancel) == t.(canceling := t.canceling || cancel)
  {
  }

  lemma CompletedDoes(t: Turn, content: bytes, cancel: bool, disk: Disk)
    requires t.toolIndex < |t.calls| && !t.failing && !t.finished && !t.stream
    ensures var r := ToolCompleted(t, content, cancel, disk);
      var (log, ok) := Store(t.log, ToolMessage(AnswerId(t.calls[t.toolIndex]), content), disk);
      r == if ok then t.(log := log, canceling := t.canceling || cancel, toolIndex := t.toolIndex + 1)
           else t.(log := log, failing := true)
  {
    hide Store, ToolMessage, AnswerId, CancelIf;
    CancelDoes(t.(log := Store(t.log, ToolMessage(AnswerId(t.calls[t.toolIndex]), content), disk).0), cancel);
  }

  /** What the gate does. */
  function Gate(s: ToolStep): bool {
    match s
    case Rejected(_, _) => false
    case Refused(_, gate, _) => gate
    case RunsInline(_, gate, _) => gate
    case RunsOn(gate) => gate
  }

  /** The turn that a step's tool starts from. */
  function Begun(t: Turn, s: ToolStep): Turn {
    var g := t.(canceling := t.canceling || Gate(s));
    if s.RunsInline? || s.RunsOn? then Ran(g) else g
  }

  lemma RanIs(t: Turn)
    ensures Ran(t).log == t.log && Ran(t).calls == t.calls && Ran(t).canceling == t.canceling
      && Ran(t).finished == t.finished && Ran(t).stream == t.stream && Ran(t).ran == t.ran + 1
  {
  }

  lemma BegunIs(t: Turn, s: ToolStep)
    ensures var b := Begun(t, s);
      && b.log == t.log && b.calls == t.calls && b.toolIndex == t.toolIndex && b.failing == t.failing
      && b.exec == t.exec && b.finished == t.finished && b.stream == t.stream
      && b.ran == t.ran + (if s.RunsInline? || s.RunsOn? then 1 else 0)
      && (b.canceling || (!s.RunsOn? && s.cancelAfter)) == (t.canceling || Cancels(s))
  {
    hide Ran;
    var g := t.(canceling := t.canceling || Gate(s));
    RanIs(g);
    if s.RunsInline? || s.RunsOn? { assert Begun(t, s) == Ran(g); } else { assert Begun(t, s) == g; }
  }

  lemma BegunFrame(t: Turn, s: ToolStep)
    ensures Frame(t, Begun(t, s))
  {
  }

  lemma CompletedFrame(t: Turn, content: bytes, cancel: bool, disk: Disk)
    requires t.toolIndex < |t.calls| && !t.failing && !t.finished && !t.stream
    ensures Frame(t, ToolCompleted(t, content, cancel, disk))
  {
    hide Store, ToolMessage, AnswerId, ToolCompleted;
    CompletedDoes(t, content, cancel, disk);
  }

  lemma StepFrame(t: Turn, s: ToolStep, disk: Disk)
    requires t.toolIndex < |t.calls| && !t.exec && !t.failing && !t.finished && !t.stream
    ensures Frame(t, StartTool(t, s, disk))
  {
    hide StartTool, ToolCompleted, Begun, Frame;
    StepBegins(t, s, disk);
    BegunIs(t, s);
    BegunFrame(t, s);
    if s.RunsOn? {
      ExecFrame(Begun(t, s));
      FrameOn(t, Begun(t, s), Begun(t, s).(exec := true));
    } else {
      CompletedFrame(Begun(t, s), s.content, s.cancelAfter, disk);
      FrameOn(t, Begun(t, s), ToolCompleted(Begun(t, s), s.content, s.cancelAfter, disk));
    }
  }

  lemma ExecFrame(t: Turn)
    ensures Frame(t, t.(exec := true))
  {
  }

  lemma {:induction false} LoopFrame(t: Turn, script: seq<ToolStep>, disk: Disk)
    requires t.toolIndex <= |t.calls| && !t.exec && !t.failing && !t.finished && !t.stream
    ensures Frame(t, Drive(t, script, disk))
    decreases |script|
  {
    hide StartTool, Frame;
    NothingFrame(t);
    if t.toolIndex < |t.calls| && !t.canceling {
      var s := if script == [] then RunsOn(false) else script[0];
      StepDoes(t, s, disk);
      var after := StartTool(t, s, disk);
      if script != [] && !after.exec && !after.failing {
        LoopFrame(after, script[1..], disk);
        FrameOn(t, after, Drive(after, script[1..], disk));
      }
    }
  }

  lemma NothingFrame(t: Turn)
    ensures Frame(t, t)
  {
  }

  lemma StepBegins(t: Turn, s: ToolStep, disk: Disk)
    requires t.toolIndex < |t.calls| && !t.finished && !t.stream
    ensures StartTool(t, s, disk)
      == if s.RunsOn? then Begun(t, s).(exec := true) else ToolCompleted(Begun(t, s), s.content, s.cancelAfter, disk)
  {
    hide ToolCompleted, CancelIf;
    if !s.Rejected? { CancelDoes(t, s.cancelInGate); }
  }

  lemma StepDoes(t: Turn, s: ToolStep, disk: Disk)
    requires t.toolIndex < |t.calls| && !t.exec && !t.failing && !t.finished && !t.stream
    ensures var r := StartTool(t, s, disk);
      var (log, ok) := Store(t.log, ToolMessage(AnswerId(t.calls[t.toolIndex]), if s.RunsOn? then [] else s.content),
          disk);
      && r.ran == t.ran + (if s.RunsInline? || s.RunsOn? then 1 else 0) && r.exec == s.RunsOn?
      && (s.RunsOn? ==> r.log == t.log && r.toolIndex == t.toolIndex && !r.failing)
      && (!s.RunsOn? ==> r.log == log && r.failing == !ok && r.toolIndex == t.toolIndex + if ok then 1 else 0)
      && (!r.failing ==> r.canceling == (t.canceling || Cancels(s)))
      && r.calls == t.calls && r.finished == t.finished && r.stream == t.stream && Frame(t, r)
  {
    hide Store, ToolMessage, AnswerId, StartTool, ToolCompleted, Begun, Frame;
    StepBegins(t, s, disk);
    BegunIs(t, s);
    BegunFrame(t, s);
    StepFrame(t, s, disk);
    if !s.RunsOn? { CompletedDoes(Begun(t, s), s.content, s.cancelAfter, disk); }
  }

  lemma StoredAnswer(log: Log, id: bytes, content: bytes, disk: Disk)
    ensures var (after, ok) := Store(log, ToolMessage(id, content), disk);
      && after.messages == log.messages + (if ok then [ToolMessage(id, content)] else [])
      && (!ok ==> Refuses(after, ToolMessage(id, content), disk))
  {
    hide Store, ToolMessage, IsMessage;
    ToolMessageView(id, content);
    StoreEffect(log, ToolMessage(id, content), disk);
    assert log.messages + [] == log.messages;
  }

  lemma {:induction false} ToolsRunShift(script: seq<ToolStep>, n: nat)
    requires script != []
    ensures ToolsRun(script, n + 1)
      == (if script[0].RunsInline? || script[0].RunsOn? then 1 else 0) + ToolsRun(script[1..], n)
  {
    if n > 0 { ToolsRunShift(script, n - 1); }
  }

  /** One more step in front of those of a round. */
  lemma OneMoreAnswer(base: seq<Json>, calls: seq<Json>, k: nat, script: seq<ToolStep>, d: nat, r: Turn)
    requires script != [] && !script[0].RunsOn? && k < |calls| && (d > 0 ==> !Cancels(script[0]))
    requires Answered(base + [ToolMessage(AnswerId(calls[k]), script[0].content)], calls, k + 1, script[1..], d, 0, r)
    ensures Answered(base, calls, k, script, d + 1, 0, r)
  {
    hide ToolMessage, AnswerId, Cancels;
    var first := ToolMessage(AnswerId(calls[k]), script[0].content);
    forall i | 0 <= i < d + 1 ensures !script[i].RunsOn? { if i > 0 { assert script[i] == script[1..][i - 1]; } }
    forall i | 0 <= i < d ensures !Cancels(script[i]) { if i > 0 { assert script[i] == script[1..][i - 1]; } }
    assert Contents(script, d + 1, 0) == [script[0].content] + Contents(script[1..], d, 0);
    assert Answers(calls, k, Contents(script, d + 1, 0))
      == [first] + Answers(calls, k + 1, Contents(script[1..], d, 0));
    assert base + ([first] + Answers(calls, k + 1, Contents(script[1..], d, 0)))
      == base + [first] + Answers(calls, k + 1, Contents(script[1..], d, 0));
  }

  lemma NothingAnswered(t: Turn, script: seq<ToolStep>)
    requires t.toolIndex <= |t.calls|
    ensures Answered(t.log.messages, t.calls, t.toolIndex, script, 0, 0, t)
  {
    assert t.log.messages + Answers(t.calls, t.toolIndex, Contents(script, 0, 0)) == t.log.messages;
  }

  /** The loop over the calls. */
  lemma {:induction false} LoopAnswers(t: Turn, script: seq<ToolStep>, disk: Disk) returns (d: nat)
    requires t.toolIndex <= |t.calls| && !t.exec && !t.failing && !t.finished && !t.stream
    ensures var r := Drive(t, script, disk);
      && Answered(t.log.messages, t.calls, t.toolIndex, script, d, 0, r)
      && Stops(t.calls, script, t.canceling, d, r, disk)
      && (r.exec ==> r.canceling == (d < |script| && Cancels(script[d])))
      && r.ran == t.ran + ToolsRun(script, d + if r.exec || r.failing then 1 else 0)
    decreases |script|
  {
    hide Store, StartTool, ToolMessage, AnswerId, Cancels, Answered, Answers, Contents;
    d := 0;
    NothingAnswered(t, script);
    if t.toolIndex < |t.calls| && !t.canceling {
      var s := if script == [] then RunsOn(false) else script[0];
      StepDoes(t, s, disk);
      var after := StartTool(t, s, disk);
      var r := Drive(t, script, disk);
      if s.RunsOn? {
        NothingAnswered(after, script);
        assert r == after;
        OneTool(script);
        BareToolCancelsNothing();
      } else {
        StoredAnswer(t.log, AnswerId(t.calls[t.toolIndex]), s.content, disk);
        assert r == Drive(after, script[1..], disk);
        if after.failing {
          NothingAnswered(after, script);
          OneTool(script);
          assert t.log.messages + [] == t.log.messages;
        } else {
          var e := LoopAnswers(after, script[1..], disk);
          AnsweredSteps(after.log.messages, t.calls, t.toolIndex + 1, script[1..], e, r);
          d := e + 1;
          assert e > 0 ==> !Cancels(script[0]);
          OneMoreAnswer(t.log.messages, t.calls, t.toolIndex, script, e, r);
          ToolsRunShift(script, e + if r.exec || r.failing then 1 else 0);
          assert e < |script[1..]| ==> script[1..][e] == script[d];
          assert e > 0 ==> script[1..][e - 1] == script[d - 1];
        }
      }
    }
  }

  lemma BareToolCancelsNothing()
    ensures !Cancels(RunsOn(false))
  {
  }

  lemma OneTool(script: seq<ToolStep>)
    ensures ToolsRun(script, 1)
      == if script == [] || script[0].RunsInline? || script[0].RunsOn? then 1 else 0
    ensures ToolsRun(script, 0) == 0
  {
    assert ToolsRun(script, 0) == 0;
  }

  lemma AnsweredSteps(base: seq<Json>, calls: seq<Json>, k: nat, script: seq<ToolStep>, d: nat, r: Turn)
    requires Answered(base, calls, k, script, d, 0, r)
    ensures d <= |script| && forall i :: 0 <= i < d ==> !script[i].RunsOn?
  {
  }

  // ----- the end of a round -----

  lemma NoAnswers(base: seq<Json>, calls: seq<Json>, k: nat)
    requires k <= |calls|
    ensures base + Answers(calls, k, Contents([], 0, 0)) == base
  {
  }

  lemma OneMoreInterrupted(base: seq<Json>, calls: seq<Json>, k: nat, n: nat)
    requires k + n + 1 <= |calls|
    ensures base + Answers(calls, k, Contents([], 0, n + 1))
      == base + [ToolMessage(AnswerId(calls[k]), INTERRUPTED)] + Answers(calls, k + 1, Contents([], 0, n))
  {
    hide ToolMessage, AnswerId;
    assert Answers(calls, k, Contents([], 0, n + 1))
      == [ToolMessage(AnswerId(calls[k]), INTERRUPTED)] + Answers(calls, k + 1, Contents([], 0, n));
  }

  lemma AnswerCallIs(t: Turn, content: bytes, disk: Disk)
    requires t.toolIndex < |t.calls|
    ensures var (log, ok) := Store(t.log, ToolMessage(AnswerId(t.calls[t.toolIndex]), content), disk);
      AnswerCall(t, content, disk) == (t.(log := log), ok)
  {
    hide Store, ToolMessage, AnswerId;
  }

  /** What is left open is answered as interrupted, until an append is refused. */
  lemma {:induction false} SynthesisAnswers(t: Turn, disk: Disk) returns (m: nat)
    requires t.toolIndex <= |t.calls|
    ensures var r := Synthesize(t, disk);
      && r.toolIndex == t.toolIndex + m
      && r.log.messages == t.log.messages + Answers(t.calls, t.toolIndex, Contents([], 0, m))
      && (r.toolIndex < |t.calls| ==> Refuses(r.log, ToolMessage(AnswerId(t.calls[r.toolIndex]), INTERRUPTED), disk))
    decreases |t.calls| - t.toolIndex
  {
    hide Store, ToolMessage, AnswerId, Refuses, Answers, Contents, AnswerCall;
    m := 0;
    NoAnswers(t.log.messages, t.calls, t.toolIndex);
    if t.toolIndex < |t.calls| {
      var k := t.toolIndex;
      StoredAnswer(t.log, AnswerId(t.calls[k]), INTERRUPTED, disk);
      AnswerCallIs(t, INTERRUPTED, disk);
      var (after, ok) := AnswerCall(t, INTERRUPTED, disk);
      if ok {
        var n := SynthesisAnswers(after.(toolIndex := k + 1), disk);
        m := n + 1;
        OneMoreInterrupted(t.log.messages, t.calls, k, n);
      } else {
        assert t.log.messages + [] == t.log.messages;
      }
    }
  }

  /** The tokens used have reached that part of a window of known size. */
  predicate WindowFull(r: Turn) {
    r.contextLength > 0 && r.tokens > 0 && r.tokens >= r.contextLength * r.contextPct / 100
  }

  /** How a round leaves a turn that was at this step. */
  predicate Leaves(step: nat, cap: nat, starts: bool, r: Turn) {
    r.stepCap == cap &&
    if r.exec then r.endings == [] && !r.timer && r.step == step
    else if r.failing then r.endings == [TurnFailed] && r.step == step
    else if r.canceling then r.endings == [TurnInterrupted] && r.step == step
    else
      && r.step == step + 1 && (r.timer <==> r.endings == [])
      && r.endings == if r.step >= cap then [TurnStepCap] else if WindowFull(r) then [TurnContextLimit]
                      else if starts then [] else [TurnFailed]
  }

  /**
   A round from its `k`th call on: its answers, where it stops and why, the tools that ran, how it leaves the turn.
   */
  ghost predicate RoundDone(base: seq<Json>, calls: seq<Json>, k: nat, canceled: bool, script: seq<ToolStep>, d: nat,
      m: nat, r: Turn, disk: Disk)
  {
    && Answered(base, calls, k, script, d, m, r) && Stops(calls, script, canceled, d, r, disk)
    && (m > 0 ==> r.canceling && !r.exec && !r.failing)
    && (r.canceling && !r.exec && !r.failing && r.toolIndex < |calls| ==>
          Refuses(r.log, ToolMessage(AnswerId(calls[r.toolIndex]), INTERRUPTED), disk))
  }

  lemma SomeInterrupted(base: seq<Json>, calls: seq<Json>, k: nat, script: seq<ToolStep>, d: nat, m: nat, q: Turn,
      r: Turn)
    requires Answered(base, calls, k, script, d, 0, q) && r.calls == calls && r.toolIndex == q.toolIndex + m <= |calls|
    requires r.log.messages == q.log.messages + Answers(calls, q.toolIndex, Contents([], 0, m))
    ensures Answered(base, calls, k, script, d, m, r)
  {
    hide ToolMessage, AnswerId;
    assert Contents(script, d, m) == Contents(script, d, 0) + Contents([], 0, m);
    assert Answers(calls, k, Contents(script, d, m))
      == Answers(calls, k, Contents(script, d, 0)) + Answers(calls, k + d, Contents([], 0, m));
  }

  lemma FinishDoes(t: Turn, ending: Ending)
    requires !t.finished && t.endings == []
    ensures var r := FinishTurn(t, ending);
      r == t.(finished := true, endings := [ending], timer := false)
  {
    assert [] + [ending] == [ending];
  }

  /** As far as a round is concerned these are the same. */
  predicate SameOutcome(q: Turn, r: Turn) {
    && r.calls == q.calls && r.toolIndex == q.toolIndex && r.log == q.log
    && r.exec == q.exec && r.failing == q.failing && r.canceling == q.canceling
  }

  lemma RoundSame(base: seq<Json>, calls: seq<Json>, k: nat, canceled: bool, script: seq<ToolStep>, d: nat, m: nat,
      q: Turn, r: Turn, disk: Disk)
    requires RoundDone(base, calls, k, canceled, script, d, m, q, disk) && SameOutcome(q, r)
    ensures RoundDone(base, calls, k, canceled, script, d, m, r, disk)
  {
    hide Refuses, Cancels, Answers, Contents, ToolMessage, AnswerId;
  }

  lemma StopStays(calls: seq<Json>, script: seq<ToolStep>, canceled: bool, d: nat, q: Turn, y: Turn, disk: Disk)
    requires Stops(calls, script, canceled, d, q, disk) && !q.exec && !q.failing && q.canceling
    requires y.exec == q.exec && y.failing == q.failing && y.canceling == q.canceling
    ensures Stops(calls, script, canceled, d, y, disk)
  {
    hide Refuses, Cancels, ToolMessage, AnswerId;
  }

  lemma FrameKeeps(t: Turn, q: Turn)
    requires Frame(t, q)
    ensures q.finished == t.finished && q.endings == t.endings && q.step == t.step && q.timer == t.timer
      && q.calls == t.calls && q.stepCap == t.stepCap && q.tokens == t.tokens
      && q.contextLength == t.contextLength && q.contextPct == t.contextPct
  {
  }

  lemma StepsOn(q: Turn, starts: bool)
    requires !q.finished && q.endings == [] && !q.timer && !q.exec && !q.failing && !q.canceling
    ensures var r := NextStep(q, starts);
      SameOutcome(q, r) && Leaves(q.step, q.stepCap, starts, r) && r.ran == q.ran
  {
    hide FinishTurn;
    var s := q.(step := q.step + 1);
    FinishDoes(s, TurnStepCap);
    FinishDoes(s, TurnContextLimit);
    FinishDoes(s, TurnFailed);
  }

  lemma Finishes(q: Turn, ending: Ending)
    requires !q.finished && q.endings == []
    ensures var r := FinishTurn(q, ending);
      SameOutcome(q, r) && r.endings == [ending] && r.step == q.step && r.stepCap == q.stepCap && r.ran == q.ran
  {
  }

  /** drive_tools. */
  lemma RoundIsAnswered(t: Turn, script: seq<ToolStep>, starts: bool, disk: Disk) returns (d: nat, m: nat)
    requires t.toolIndex <= |t.calls| && !t.exec && !t.failing && !t.finished && !t.stream && !t.timer
        && t.endings == []
    ensures var r := DriveTools(t, script, starts, disk);
      && RoundDone(t.log.messages, t.calls, t.toolIndex, t.canceling, script, d, m, r, disk)
      && r.ran == t.ran + ToolsRun(script, d + if r.exec || r.failing then 1 else 0)
      && Leaves(t.step, t.stepCap, starts, r)
  {
    hide Drive, Synthesize, Answered, Stops, Refuses, Cancels, ToolsRun, FinishTurn, NextStep, WindowFull, Frame;
    d := LoopAnswers(t, script, disk);
    m := 0;
    var q := Drive(t, script, disk);
    LoopFrame(t, script, disk);
    FrameKeeps(t, q);
    var base := t.log.messages;
    StopsMeans(t.calls, script, t.canceling, d, q, disk);
    if q.failing {
      Finishes(q, TurnFailed);
      RoundSame(base, t.calls, t.toolIndex, t.canceling, script, d, 0, q, FinishTurn(q, TurnFailed), disk);
    } else if !q.exec && q.canceling {
      m := SynthesisAnswers(q, disk);
      var y := Synthesize(q, disk);
      SomeInterrupted(base, t.calls, t.toolIndex, script, d, m, q, y);
      StopStays(t.calls, script, t.canceling, d, q, y, disk);
      Finishes(y, TurnInterrupted);
      RoundSame(base, t.calls, t.toolIndex, t.canceling, script, d, m, y, FinishTurn(y, TurnInterrupted), disk);
    } else if !q.exec {
      StepsOn(q, starts);
      RoundSame(base, t.calls, t.toolIndex, t.canceling, script, d, 0, q, NextStep(q, starts), disk);
    }
  }

  lemma StopsMeans(calls: seq<Json>, script: seq<ToolStep>, canceled: bool, d: nat, q: Turn, disk: Disk)
    requires Stops(calls, script, canceled, d, q, disk)
    ensures q.exec ==> !q.failing
  {
  }

  // ----- every callback -----

  /** The usage that a stream's end reports makes the one warning of the turn due. */
  predicate WarningDue(t: Turn, total: int) {
    var tokens := if total > 0 then total else t.tokens;
    !t.warned && t.warnPct > 0 && t.contextLength > 0 && tokens > 0 && tokens >= t.contextLength * t.warnPct / 100
  }

  /** The turn once the stream is gone. */
  lemma StreamGone(t: Turn, total: int, cancel: bool)
    requires Inv(t) && t.live && !t.finished
    ensures var s := t.(stream := false, live := false, tokens := if total > 0 then total else t.tokens);
      var w := WarnContext(s, cancel);
      && w.log == t.log && w.ran == t.ran && w.step == t.step && w.stepCap == t.stepCap && w.endings == []
          && w.tokens == s.tokens
      && w.cancelRequested == t.cancelRequested && w.canceling == (cancel && WarningDue(t, total))
      && !w.exec && !w.failing && !w.finished && !w.stream && !w.timer && !w.live
  {
    hide ShapeOf, RoundShape, CancelIf;
    var s := t.(stream := false, live := false, tokens := if total > 0 then total else t.tokens);
    CancelDoes(s.(warned := true), cancel);
  }

  /** The message is stored and opens a round. */
  lemma OpenedRound(a: Turn, message: Json, script: seq<ToolStep>, starts: bool, disk: Disk) returns (d: nat, m: nat)
    requires !a.exec && !a.failing && !a.finished && !a.stream && !a.timer && a.endings == []
    ensures var r := RoundOpened(a, message, script, starts, disk);
      && RoundDone(a.log.messages, CallsOf(message), 0, a.cancelRequested || a.canceling, script, d, m, r, disk)
      && r.ran == a.ran + ToolsRun(script, d + if r.exec || r.failing then 1 else 0)
          && Leaves(a.step, a.stepCap, starts, r)
  {
    hide DriveTools, Synthesize, CallsOf, RoundDone, ToolsRun, FinishTurn;
    var open := a.(calls := CallsOf(message), toolIndex := 0);
    if open.cancelRequested {
      var q := open.(canceling := true);
      d, m := InterruptedRound(q, script, disk);
      OneTool(script);
      Finishes(Synthesize(q, disk), TurnInterrupted);
    } else {
      d, m := RoundIsAnswered(open, script, starts, disk);
    }
  }

  lemma InterruptedRound(q: Turn, script: seq<ToolStep>, disk: Disk) returns (d: nat, m: nat)
    requires q.toolIndex == 0 && q.canceling && !q.exec && !q.failing && !q.finished && q.endings == []
    ensures d == 0
    ensures var r := FinishTurn(Synthesize(q, disk), TurnInterrupted);
      RoundDone(q.log.messages, q.calls, 0, true, script, d, m, r, disk)
  {
    hide Synthesize, Refuses, Cancels, ToolMessage, AnswerId, Answers, Contents, FinishTurn;
    d := 0;
    m := SynthesisAnswers(q, disk);
    var y := Synthesize(q, disk);
    NothingAnswered(q, script);
    SomeInterrupted(q.log.messages, q.calls, 0, script, 0, m, q, y);
    Finishes(y, TurnInterrupted);
    RoundSame(q.log.messages, q.calls, 0, true, script, 0, m, y, FinishTurn(y, TurnInterrupted), disk);
  }

  lemma LandedDoes(w: Turn, message: Json, script: seq<ToolStep>, starts: bool, disk: Disk) returns (d: nat, m: nat)
    requires IsMessage(message)
    requires !w.exec && !w.failing && !w.finished && !w.stream && !w.timer && w.endings == []
    ensures var r := MessageLanded(w, message, script, starts, disk);
      var (log, ok) := Store(w.log, message, disk);
      && (!ok ==> r.endings == [TurnFailed] && r.log == log && r.ran == w.ran && Refuses(log, message, disk))
      && (ok && CallsOf(message) == [] ==> r.endings == [TurnDone] && r.log == log && r.ran == w.ran)
      && (ok && CallsOf(message) != [] ==>
            && RoundDone(log.messages, CallsOf(message), 0, w.cancelRequested || w.canceling, script, d, m, r, disk)
            && r.ran == w.ran + ToolsRun(script, d + if r.exec || r.failing then 1 else 0)
                && Leaves(w.step, w.stepCap, starts, r))
      && log.messages == w.log.messages + if ok then [message] else []
  {
    hide Store, RoundOpened, CallsOf, RoundDone, ToolsRun, FinishTurn, IsMessage, Leaves;
    d, m := 0, 0;
    StoreEffect(w.log, message, disk);
    var (log, ok) := Store(w.log, message, disk);
    assert w.log.messages + [] == w.log.messages;
    var a := w.(log := log);
    Finishes(a, TurnFailed);
    Finishes(a, TurnDone);
    if ok && CallsOf(message) != [] { d, m := OpenedRound(a, message, script, starts, disk); }
  }

  /** The stream reports its message: what is stored, and what the turn comes to. */
  lemma DoneDoes(t: Turn, message: Json, total: int, cancel: bool, script: seq<ToolStep>, starts: bool, disk: Disk)
      returns (d: nat, m: nat)
    requires Inv(t) && t.live && !t.finished && IsAssistant(message)
    ensures var r := StreamCompleted(t, message, total, cancel, script, starts, disk);
      var (log, ok) := Store(t.log, message, disk);
      && log.messages == t.log.messages + (if ok then [message] else [])
      && (!ok ==> r.endings == [TurnFailed] && r.log == log && r.ran == t.ran && Refuses(log, message, disk))
      && (ok && CallsOf(message) == [] ==> r.endings == [TurnDone] && r.log == log && r.ran == t.ran)
      && (ok && CallsOf(message) != [] ==>
            && RoundDone(log.messages, CallsOf(message), 0, t.cancelRequested
                || (cancel && WarningDue(t, total)), script,
                 d, m, r, disk)
            && r.ran == t.ran + ToolsRun(script, d + if r.exec || r.failing then 1 else 0)
                && Leaves(t.step, t.stepCap, starts, r))
  {
    hide MessageLanded, WarnContext, Inv, Store, CallsOf, RoundDone, ToolsRun, Leaves, WarningDue, GetString;
    StreamGone(t, total, cancel);
    var s := t.(stream := false, live := false, tokens := if total > 0 then total else t.tokens);
    d, m := LandedDoes(WarnContext(s, cancel), message, script, starts, disk);
  }

  /** A tool that ran on is done. */
  lemma ToolDoes(t: Turn, content: bytes, cancel: bool, script: seq<ToolStep>, starts: bool, disk: Disk)
      returns (d: nat, m: nat)
    requires Inv(t) && t.exec && !t.finished
    ensures var r := ToolDone(t, content, cancel, script, starts, disk);
      var answer := ToolMessage(AnswerId(t.calls[t.toolIndex]), content);
      var (log, ok) := Store(t.log, answer, disk);
      && log.messages == t.log.messages + (if ok then [answer] else [])
      && (!ok ==> r.endings == [TurnFailed] && r.log == log && r.ran == t.ran && Refuses(log, answer, disk))
      && (ok ==>
            && RoundDone(log.messages, t.calls, t.toolIndex + 1, t.canceling || cancel, script, d, m, r, disk)
            && r.ran == t.ran + ToolsRun(script, d + if r.exec || r.failing then 1 else 0)
                && Leaves(t.step, t.stepCap, starts, r))
  {
    hide ShapeOf, RoundShape, ToolCompleted, DriveTools, Store, ToolMessage, AnswerId, RoundDone, ToolsRun, Leaves,
        FinishTurn;
    d, m := 0, 0;
    var s := t.(exec := false);
    StoredAnswer(t.log, AnswerId(t.calls[t.toolIndex]), content, disk);
    CompletedDoes(s, content, cancel, disk);
    var c := ToolCompleted(s, content, cancel, disk);
    if c.failing {
      FailingEnds(c, script, starts, disk);
      Finishes(c, TurnFailed);
    } else {
      d, m := RoundIsAnswered(c, script, starts, disk);
    }
  }

  /** What a callback without a message does to the turn's log and round, and how it ends the turn. */
  predicate OtherDoes(t: Turn, e: Event, r: Turn) {
    && r.log == t.log && r.calls == t.calls && r.toolIndex == t.toolIndex && r.ran == t.ran && r.step == t.step
    && match e
       case TimerEvent(request) =>
         && r.endings == (if t.canceling then [TurnInterrupted] else if request.Streaming? then [] else [TurnFailed])
         && r.requests == t.requests + (if t.canceling then 0 else 1)
         && (r.live <==> !t.canceling && request.Streaming?) && !r.timer
       case TextEvent(cancel) => r.endings == [] && (r.cancelRequested <==> t.cancelRequested || cancel)
       case ErrorEvent => r.endings == [if t.cancelRequested then TurnInterrupted else TurnFailed]
       case CancelEvent(inline) =>
         && r.endings == (if t.live && inline && !t.cancelRequested then [TurnInterrupted] else [])
         && (if t.live then r.cancelRequested && !r.canceling else r.canceling)
       case _ => true
  }

  lemma TimerDoes(t: Turn, request: Request, disk: Disk)
    requires Inv(t) && Enabled(t, TimerEvent(request)) && !t.finished
    ensures OtherDoes(t, TimerEvent(request), Next(t, TimerEvent(request), disk))
  {
    hide ShapeOf, RoundShape, Justified;
  }

  lemma TextDoes(t: Turn, cancel: bool, disk: Disk)
    requires Inv(t) && Enabled(t, TextEvent(cancel)) && !t.finished
    ensures OtherDoes(t, TextEvent(cancel), Next(t, TextEvent(cancel), disk))
  {
    hide ShapeOf, RoundShape, Justified;
  }

  lemma ErrorDoes(t: Turn, disk: Disk)
    requires Inv(t) && Enabled(t, ErrorEvent) && !t.finished
    ensures OtherDoes(t, ErrorEvent, Next(t, ErrorEvent, disk))
  {
    hide ShapeOf, RoundShape, Justified;
  }

  lemma CancelEventDoes(t: Turn, inline: bool, disk: Disk)
    requires Inv(t) && Enabled(t, CancelEvent(inline)) && !t.finished
    ensures OtherDoes(t, CancelEvent(inline), Next(t, CancelEvent(inline), disk))
  {
    hide ShapeOf, RoundShape, Justified;
  }

  /** The callbacks without messages. */
  lemma OthersDo(t: Turn, e: Event, disk: Disk)
    requires Inv(t) && Enabled(t, e) && !t.finished && !e.DoneEvent? && !e.ToolEvent?
    ensures OtherDoes(t, e, Next(t, e, disk))
  {
    hide Inv, Next, OtherDoes;
    match e
    case TimerEvent(request) => TimerDoes(t, request, disk);
    case TextEvent(cancel) => TextDoes(t, cancel, disk);
    case ErrorEvent => ErrorDoes(t, disk);
    case CancelEvent(inline) => CancelEventDoes(t, inline, disk);
    case _ =>
  }

  // ----- whole runs -----

  /** The callback stores a message and goes on to a round of calls. */
  predicate InRound(t: Turn, e: Event, disk: Disk) {
    || (e.DoneEvent? && Store(t.log, e.message, disk).1 && CallsOf(e.message) != [])
    || (e.ToolEvent? && t.toolIndex < |t.calls|
        && Store(t.log, ToolMessage(AnswerId(t.calls[t.toolIndex]), e.content), disk).1)
  }

  /** How the callback ends the turn, if it does; a round's outcome is that of RoundDone. */
  function EndingDue(t: Turn, e: Event, disk: Disk, r: Turn): seq<Ending> {
    if InRound(t, e, disk) then
      if r.exec then []
      else if r.failing then [TurnFailed]
      else if r.canceling then [TurnInterrupted]
      else if t.step + 1 >= t.stepCap then [TurnStepCap]
      else if WindowFull(r) then [TurnContextLimit]
      else if (if e.DoneEvent? then e.timerStarts else e.ToolEvent? && e.timerStarts) then [] else [TurnFailed]
    else
      match e
      case DoneEvent(message, _, _, _, _) => [if Store(t.log, message, disk).1 then TurnDone else TurnFailed]
      case ToolEvent(_, _, _, _) => [TurnFailed]
      case TimerEvent(request) =>
        if t.canceling then [TurnInterrupted] else if request.Streaming? then [] else [TurnFailed]
      case ErrorEvent => [if t.cancelRequested then TurnInterrupted else TurnFailed]
      case CancelEvent(inline) => if t.live && inline && !t.cancelRequested then [TurnInterrupted] else []
      case TextEvent(_) => []
  }

  /** Every callback of a turn that lasts ends it exactly so. */
  lemma EveryEndingIsDue(t: Turn, e: Event, disk: Disk)
    requires Inv(t) && Enabled(t, e) && !t.finished
    ensures var r := Next(t, e, disk); r.endings == EndingDue(t, e, disk, r) && (r.finished <==> r.endings != [])
  {
    hide Inv, Store, CallsOf, ToolMessage, AnswerId, RoundDone, ToolsRun, WindowFull, StreamCompleted, ToolDone,
        IsAssistant;
    CallbackKeeps(t, e, disk);
    match e
    case DoneEvent(message, total, cancel, script, starts) =>
      var d, m := DoneDoes(t, message, total, cancel, script, starts, disk);
    case ToolEvent(content, cancel, script, starts) =>
      ToolWaits(t);
      var d, m := ToolDoes(t, content, cancel, script, starts, disk);
    case _ => OthersDo(t, e, disk);
  }

  lemma ToolWaits(t: Turn)
    requires Inv(t) && t.exec && !t.finished
    ensures t.toolIndex < |t.calls|
  {
    hide ShapeOf, RoundShape;
  }

  lemma CallbackKeeps(t: Turn, e: Event, disk: Disk)
    requires Inv(t) && Enabled(t, e)
    ensures Inv(Next(t, e, disk))
    ensures Next(t, e, disk).finished <==> Next(t, e, disk).endings != []
  {
    hide Next, ShapeOf, RoundShape, Justified, Enabled;
    EveryStepKeeps(t, e, disk);
  }

  /** Nothing comes after the end. */
  lemma FinishedStays(t: Turn, e: Event, disk: Disk)
    requires Inv(t) && Enabled(t, e) && t.finished
    ensures Next(t, e, disk) == t
  {
    hide ShapeOf, RoundShape, Justified, IsAssistant;
  }

  /** The callback that ends a run's turn, and the turn that it finds. */
  function Last(t: Turn, events: seq<Event>, disk: Disk): (Turn, Event)
    requires Inv(t) && !t.finished && PossibleRun(t, events, disk) && AfterRun(t, events, disk).finished
    decreases |events|
  {
    EveryStepKeeps(t, events[0], disk);
    var next := Next(t, events[0], disk);
    if next.finished then (t, events[0]) else Last(next, events[1..], disk)
  }

  lemma {:induction false} FinishedRunStays(t: Turn, events: seq<Event>, disk: Disk)
    requires Inv(t) && t.finished && PossibleRun(t, events, disk)
    ensures AfterRun(t, events, disk) == t
    decreases |events|
  {
    hide Next, Inv, Enabled;
    if events != [] {
      EveryStepKeeps(t, events[0], disk);
      FinishedStays(t, events[0], disk);
      FinishedRunStays(t, events[1..], disk);
    }
  }

  /**
   Over every run that ends a turn: it ends once, by the callback that is due to end it, and in the way that is due; and
   what it then holds is what that callback left.
   */
  lemma {:induction false} EveryRunEndsDuly(t: Turn, events: seq<Event>, disk: Disk)
    requires Inv(t) && !t.finished && PossibleRun(t, events, disk) && AfterRun(t, events, disk).finished
    ensures var (b, e) := Last(t, events, disk);
      && Inv(b) && Enabled(b, e) && !b.finished
      && var r := AfterRun(t, events, disk);
      r == Next(b, e, disk) && r.endings == EndingDue(b, e, disk, r) && |r.endings| == 1
    decreases |events|
  {
    hide Next, Inv, Enabled, EndingDue;
    EnabledFits(t, events[0]);
    EveryStepKeeps(t, events[0], disk);
    var next := Next(t, events[0], disk);
    if next.finished {
      FinishedRunStays(next, events[1..], disk);
      EveryEndingIsDue(t, events[0], disk);
      OneEnding(next);
    } else {
      EveryRunEndsDuly(next, events[1..], disk);
    }
  }

  lemma OneEnding(t: Turn)
    requires Inv(t) && t.finished
    ensures |t.endings| == 1
  {
    hide ShapeOf, RoundShape, Justified;
  }
}
