/** A session that takes turn after turn: the user's prompts, and the callbacks of the turns they start. */
module AgentSession {
  import opened Bytes
  import opened CJsonSpec
  import opened SessionSpec
  import opened AgentSpec
  import opened AgentLaws

  const ROLE_USER: bytes := [117, 115, 101, 114]

  /** A session between turns, or with a turn on it that may be over. */
  datatype Session = Between(rest: Log) | InTurn(t: Turn)

  /** A callback of the turn, or agent_turn_start with what the options and the timer come to. */
  datatype Act =
    | Callback(e: Event, disk: Disk)
    | Prompt(text: bytes, stepCap: nat, contextLength: int, contextPct: int, warnPct: int, timerStarts: bool,
        disk: Disk)

  function LogOf(s: Session): Log {
    match s
    case Between(log) => log
    case InTurn(t) => t.log
  }

  function UserMessage(text: bytes): Json {
    Object([Member(KEY_ROLE, String(ROLE_USER)), Member(KEY_CONTENT, String(text[..Find(text, NUL)]))])
  }

  /** agent_turn_start: the user's message is stored before anything else, and stays when the timer fails. */
  function Prompted(log: Log, p: Act): Session
    requires p.Prompt?
  {
    if p.text == [] then Between(log)
    else
      var (after, ok) := Store(log, UserMessage(p.text), p.disk);
      if ok && p.timerStarts then InTurn(Started(after, p.stepCap, p.contextLength, p.contextPct, p.warnPct))
      else Between(after)
  }

  /** A prompt waits for the turn before it to end; a step cap is positive. */
  predicate CanAct(s: Session, a: Act) {
    match a
    case Callback(e, _) => s.InTurn? && Enabled(s.t, e)
    case Prompt(_, cap, _, _, _, _, _) => cap > 0 && (s.InTurn? ==> s.t.finished)
  }

  predicate SessionInv(s: Session) {
    match s
    case Between(log) => ShapeOf(log.messages) == Complete || (ShapeOf(log.messages) != Broken && Closed(log))
    case InTurn(t) => Inv(t) && NothingOpen(t)
  }

  /** No answer of this callback is too long for its line. */
  predicate ActFits(s: Session, a: Act) {
    a.Callback? && s.InTurn? ==> EventFits(s.t, a.e)
  }

  function After(s: Session, a: Act): Session
    requires SessionInv(s) && CanAct(s, a)
  {
    match a
    case Callback(e, disk) => InTurn(Next(s.t, e, disk))
    case Prompt(_, _, _, _, _, _, _) => Prompted(LogOf(s), a)
  }

  lemma UserMessageView(text: bytes)
    ensures ViewOf(UserMessage(text)) == Plain && IsMessage(UserMessage(text))
  {
    assert Lookup(UserMessage(text).members, KEY_ROLE) == Some(String(ROLE_USER));
  }

  /** A prompt, as a provider reads it: the user's text up to its first NUL. */
  lemma UserMessageReads(text: bytes)
    ensures GetString(UserMessage(text), Ascii("role")) == Some(Ascii("user"))
    ensures exists n ::
      && 0 <= n <= |text| && NUL !in text[..n] && (n < |text| ==> text[n] == NUL)
      && GetString(UserMessage(text), Ascii("content")) == Some(text[..n])
  {
    var ms, n := UserMessage(text).members, Find(text, NUL);
    assert KEY_ROLE == Ascii("role") && ROLE_USER == Ascii("user") && KEY_CONTENT == Ascii("content");
    assert Lookup(ms[1..], KEY_CONTENT) == Some(String(text[..n]));
    assert 0 <= n <= |text| && NUL !in text[..n] && (n < |text| ==> text[n] == NUL);
  }

  /** A prompt starts a sound turn on a complete conversation, and does nothing to a closed session. */
  lemma PromptKeeps(log: Log, p: Act)
    requires p.Prompt? && p.stepCap > 0
    requires ShapeOf(log.messages) == Complete || (ShapeOf(log.messages) != Broken && Closed(log))
    ensures SessionInv(Prompted(log, p))
  {
    hide Store, ShapeOf, Closed, IsMessage, UserMessage, ViewOf, TooLong, AnswerIds;
    var msg := UserMessage(p.text);
    UserMessageView(p.text);
    StoreEffect(log, msg, p.disk);
    ShapeSnoc(log.messages, msg);
    assert log.messages + [] == log.messages;
    var after := Store(log, msg, p.disk).0;
    if ShapeOf(after.messages) == Complete { StartIsSound(after, p.stepCap, p.contextLength, p.contextPct, p.warnPct); }
  }

  lemma EndedTurn(t: Turn)
    requires Inv(t) && NothingOpen(t) && t.finished
    ensures ShapeOf(t.log.messages) == Complete || (ShapeOf(t.log.messages) != Broken && Closed(t.log))
  {
    hide ShapeOf, Closed, Justified;
  }

  lemma EveryActKeeps(s: Session, a: Act)
    requires SessionInv(s) && CanAct(s, a) && ActFits(s, a)
    ensures SessionInv(After(s, a))
  {
    hide ShapeOf, Closed, Inv, NothingOpen, EventFits, Next, Enabled, Prompted;
    match a
    case Callback(e, disk) =>
      EveryStepKeeps(s.t, e, disk);
      FittingAnswersLeaveNothingOpen(s.t, e, disk);
    case Prompt(_, _, _, _, _, _, _) =>
      if s.InTurn? { EndedTurn(s.t); }
      PromptKeeps(LogOf(s), a);
  }

  // ----- whole sessions -----

  predicate PossibleSession(s: Session, acts: seq<Act>)
    requires SessionInv(s)
    decreases |acts|
  {
    acts == []
    || (CanAct(s, acts[0]) && ActFits(s, acts[0])
        && (EveryActKeeps(s, acts[0]); PossibleSession(After(s, acts[0]), acts[1..])))
  }

  function AfterSession(s: Session, acts: seq<Act>): Session
    requires SessionInv(s) && PossibleSession(s, acts)
    decreases |acts|
  {
    if acts == [] then s else EveryActKeeps(s, acts[0]); AfterSession(After(s, acts[0]), acts[1..])
  }

  /**
   Over every session, whatever its prompts, callbacks, cancels and failing writes, as long as every answer fits its
   line: the conversation is never broken; while a turn lasts it is open exactly at the call the turn is at; every
   turn keeps its invariant; and between turns every call is answered, or the session takes nothing more.
   */
  lemma {:induction false} EverySessionKeeps(s: Session, acts: seq<Act>)
    requires SessionInv(s) && PossibleSession(s, acts)
    ensures var r := AfterSession(s, acts);
      && ShapeOf(LogOf(r).messages) != Broken
      && (r.InTurn? ==> Inv(r.t) && ShapeOf(r.t.log.messages) == RoundShape(r.t.calls, r.t.toolIndex))
      && (r.Between? || r.t.finished ==> ShapeOf(LogOf(r).messages) == Complete || Closed(LogOf(r)))
    decreases |acts|
  {
    hide ShapeOf, Closed, After, Justified, ActFits, CanAct;
    if acts != [] {
      EveryActKeeps(s, acts[0]);
      EverySessionKeeps(After(s, acts[0]), acts[1..]);
    }
  }

  /** A new session, and one that repair has completed, are where such a run can start. */
  lemma CompleteSessionsAreReady(log: Log)
    ensures ShapeOf(log.messages) == Complete ==> SessionInv(Between(log))
    ensures log.messages == [] ==> ShapeOf(log.messages) == Complete
  {
  }

  /**
   Without that, a prompt breaks the conversation exactly when the turn before it left a call open and the session
   still takes the user's message.
   */
  lemma PromptBreaksIff(t: Turn, p: Act)
    requires Inv(t) && t.finished && p.Prompt?
    ensures var r := LogOf(Prompted(t.log, p));
      ShapeOf(r.messages) == Broken
      <==> t.toolIndex < |t.calls| && p.text != [] && Store(t.log, UserMessage(p.text), p.disk).1
  {
    hide Store, ShapeOf, Closed, IsMessage, UserMessage, ViewOf, TooLong, AnswerIds, Justified;
    var msg := UserMessage(p.text);
    UserMessageView(p.text);
    StoreEffect(t.log, msg, p.disk);
    ShapeSnoc(t.log.messages, msg);
    assert t.log.messages + [] == t.log.messages;
  }
}
