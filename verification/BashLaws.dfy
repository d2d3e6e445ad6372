/** The close join of the bash tool, over every order of callbacks. */
module BashLaws {
  import opened BashSpec

  function Count(h: Handle): nat { if h == Gone then 1 else 0 }

  function Closes(h: Handle): nat { if h == Open then 0 else 1 }

  /** What holds throughout: the counts, and that flags and handles agree. */
  predicate Sound(e: Exec) {
    && Mirrors(e) && TimerLast(e)
    && e.closesDone == Count(e.proc) + Count(e.out) + Count(e.timer)
    && (e.trace.freed <==> e.closesDone == 3)
    && e.trace.results == (if e.doneFired then 1 else 0)
    && (e.trace.freed ==> e.doneFired)
    && (e.timer != Open ==> e.role == Idle)
    && (!e.exited ==> !e.graceArmed && e.role != Grace)
    && (e.reading <==> e.out == Open)
    && e.trace.proc == Closes(e.proc) && e.trace.out == Closes(e.out) && e.trace.timer == Closes(e.timer)
  }

  /** What holds between callbacks: after the exit, the pipe is done and the timer closed, or the grace wait runs. */
  predicate Inv(e: Exec) {
    && Sound(e)
    && (e.exited && e.pipeDone ==> e.timer != Open)
    && (e.exited && !e.pipeDone ==> e.graceArmed && e.role == Grace)
  }

  lemma ArmedIsSound(a: Arming)
    ensures Inv(Arm(a))
  {
  }

  lemma MaybeFinishJoins(e: Exec, starts: bool)
    requires Sound(e) && (e.graceArmed && !e.pipeDone ==> e.role == Grace)
    ensures Inv(MaybeFinish(e, starts))
  {
  }

  lemma ForcePipeCloseJoins(e: Exec, starts: bool)
    requires Sound(e) && (e.exited && e.pipeDone ==> e.timer != Open) && (e.exited ==> e.graceArmed || e.pipeDone)
    ensures Inv(ForcePipeClose(e, starts))
  {
    hide MaybeFinish, Sound;
    MirrorsHold(e);
    if !e.pipeDone {
      PipeClosed(e);
      MaybeFinishJoins(CloseOut(e.(pipeDone := true)), starts);
    }
  }

  lemma MirrorsHold(e: Exec)
    requires Sound(e)
    ensures Mirrors(e) && TimerLast(e)
  {
  }

  lemma PipeClosed(e: Exec)
    requires Sound(e) && !e.pipeDone
    ensures CanClose(e.out) && Sound(CloseOut(e.(pipeDone := true)))
  {
    PipeGone(e, CloseOut(e.(pipeDone := true)));
  }

  lemma PipeGone(e: Exec, c: Exec)
    requires Sound(e) && !e.pipeDone
    requires c.exited == e.exited && c.pipeDone && c.doneFired == e.doneFired && c.timerClosing == e.timerClosing
    requires c.graceArmed == e.graceArmed && c.closesDone == e.closesDone && c.proc == e.proc && c.timer == e.timer
        && c.role == e.role
    requires c.out == Closing && !c.reading
    requires c.trace.proc == e.trace.proc && c.trace.out == e.trace.out + 1 && c.trace.timer == e.trace.timer
        && c.trace.results == e.trace.results && c.trace.freed == e.trace.freed
    ensures Sound(c)
  {
  }

  /** A handle libuv is done with, counted. */
  lemma CloseCallbackKeeps(e: Exec, gone: Exec)
    requires Inv(e) && !e.trace.freed
    requires gone == e.(proc := gone.proc, out := gone.out, timer := gone.timer) && Mirrors(gone)
    requires Count(gone.proc) + Count(gone.out) + Count(gone.timer) == Count(e.proc) + Count(e.out) + Count(e.timer) + 1
    ensures Inv(CloseCallback(gone))
  {
    hide Count;
    AtMostThree(e);
    AtMostThree(gone);
  }

  lemma AtMostThree(e: Exec)
    ensures Count(e.proc) + Count(e.out) + Count(e.timer) <= 3
  {
  }

  /** Every callback keeps the invariant; that Next is defined says that each uv_close is of an open handle. */
  lemma EveryStepKeeps(e: Exec, v: Event)
    requires Inv(e) && CanHappen(e, v)
    ensures Inv(Next(e, v))
  {
    hide MaybeFinish, ForcePipeClose, CloseCallback;
    match v
    case Exits(starts) => MaybeFinishJoins(CloseProc(e.(exited := true)), starts);
    case ReadEnds(starts) => ForcePipeCloseJoins(e, starts);
    case TimerFires(starts) =>
      if e.role == Grace { ForcePipeCloseJoins(e.(role := Idle, graceForced := true), starts); }
    case CancelCalled(starts) => ForcePipeCloseJoins(e.(canceled := true), starts);
    case ProcClosed => CloseCallbackKeeps(e, e.(proc := Gone));
    case OutClosed => CloseCallbackKeeps(e, e.(out := Gone));
    case TimerClosed => CloseCallbackKeeps(e, e.(timer := Gone));
  }

  predicate PossibleRun(e: Exec, events: seq<Event>)
    requires Inv(e)
    decreases |events|
  {
    events == [] || (CanHappen(e, events[0]) && (EveryStepKeeps(e, events[0]);
            PossibleRun(Next(e, events[0]), events[1..])))
  }

  function AfterRun(e: Exec, events: seq<Event>): Exec
    requires Inv(e) && PossibleRun(e, events)
    decreases |events|
  {
    if events == [] then e else EveryStepKeeps(e, events[0]); AfterRun(Next(e, events[0]), events[1..])
  }

  /** A closed handle stays closed, and nothing happens to a freed struct. */
  lemma NeverReopens(e: Exec, v: Event)
    requires Inv(e) && CanHappen(e, v)
    ensures !e.trace.freed
    ensures e.proc != Open ==> Next(e, v).proc != Open
    ensures e.out != Open ==> Next(e, v).out != Open
    ensures e.timer != Open ==> Next(e, v).timer != Open
  {
  }

  // ----- the ways a run can end -----

  function Weight(h: Handle): nat {
    match h
    case Open => 3
    case Closing => 1
    case Gone => 0
  }

  /** What is left to come: every handle's closing, and an armed timer. */
  function Rank(e: Exec): nat {
    Weight(e.proc) + Weight(e.out) + Weight(e.timer) + (if e.role == Idle then 0 else 1)
  }

  lemma ExitGoesOn(e: Exec, starts: bool)
    requires Inv(e) && e.proc == Open
    ensures Rank(Next(e, Exits(starts))) < Rank(e)
  {
  }

  lemma ReadEndGoesOn(e: Exec, starts: bool)
    requires Inv(e) && e.out == Open
    ensures Rank(Next(e, ReadEnds(starts))) < Rank(e)
  {
  }

  lemma TimerGoesOn(e: Exec, starts: bool)
    requires Inv(e) && e.role != Idle && e.timer == Open
    ensures Rank(Next(e, TimerFires(starts))) < Rank(e)
  {
  }

  lemma CancelGoesOn(e: Exec, starts: bool)
    requires Inv(e) && !e.doneFired
    ensures Rank(Next(e, CancelCalled(starts))) <= Rank(e)
  {
  }

  /** Every callback but a cancel that changes nothing brings the release closer. */
  lemma EveryCallbackGoesOn(e: Exec, v: Event)
    requires Inv(e) && CanHappen(e, v)
    ensures Rank(Next(e, v)) < Rank(e) || (v.CancelCalled? && Rank(Next(e, v)) == Rank(e))
  {
    match v
    case Exits(starts) => ExitGoesOn(e, starts);
    case ReadEnds(starts) => ReadEndGoesOn(e, starts);
    case TimerFires(starts) => TimerGoesOn(e, starts);
    case CancelCalled(starts) => CancelGoesOn(e, starts);
    case ProcClosed =>
    case OutClosed =>
    case TimerClosed =>
  }

  /** At rank zero, and only there, the struct has been freed. */
  lemma ReleasedAtZero(e: Exec)
    requires Inv(e)
    ensures e.trace.freed <==> Rank(e) == 0
  {
  }

  /** Until the release something is pending: the child, a closing handle, or the grace timer. */
  lemma NeverStuck(e: Exec)
    requires Inv(e) && !e.trace.freed
    ensures e.proc == Open || e.proc == Closing || e.out == Closing || e.timer == Closing || e.role == Grace
  {
  }

  /**
   One result at most until the release and exactly one at it; no handle closed twice, and none left open at the
   release.
   */
  predicate Promised(e: Exec) {
    && e.trace.results <= 1 && (e.trace.freed ==> e.trace.results == 1)
    && e.trace.proc <= 1 && e.trace.out <= 1 && e.trace.timer <= 1
    && (e.trace.freed ==> e.trace.proc == 1 && e.trace.out == 1 && e.trace.timer == 1)
  }

  lemma SoundIsPromised(e: Exec)
    requires Inv(e)
    ensures Promised(e)
  {
  }

  /** Over every run, however exit, end of output, timeout, grace, cancel and the three closings are ordered. */
  lemma {:induction false} EveryRunKeeps(e: Exec, events: seq<Event>)
    requires Inv(e) && PossibleRun(e, events)
    ensures Inv(AfterRun(e, events)) && Promised(AfterRun(e, events))
    decreases |events|
  {
    hide Next, Promised, Closes, Count;
    if events == [] {
      SoundIsPromised(e);
    } else {
      EveryStepKeeps(e, events[0]);
      EveryRunKeeps(Next(e, events[0]), events[1..]);
    }
  }

  // ----- from the start of a command -----

  predicate PossibleCommand(a: Arming, events: seq<Event>) {
    hide Inv, Arm;
    ArmedIsSound(a);
    PossibleRun(Arm(a), events)
  }

  /** The command runs, its pipe and timeout are armed, and these callbacks follow. */
  function AfterCommand(a: Arming, events: seq<Event>): Exec
    requires PossibleCommand(a, events)
  {
    hide Inv, Arm;
    ArmedIsSound(a);
    AfterRun(Arm(a), events)
  }

  lemma EveryCommandKeeps(a: Arming, events: seq<Event>)
    requires PossibleCommand(a, events)
    ensures Inv(AfterCommand(a, events)) && Promised(AfterCommand(a, events))
  {
    hide Inv, Arm, Promised, PossibleRun, AfterRun;
    ArmedIsSound(a);
    EveryRunKeeps(Arm(a), events);
  }
}
