/** What each callback of a running command does, exactly, and what the flags of its result mean. */
module BashEndings {
  import opened Bytes
  import opened BashSpec
  import opened BashLaws
  import Bash

  /** The pipe is closed and read no more, and so is the timer when the child has exited. */
  function PipeShut(e: Exec): Exec {
    var t := e.(pipeDone := true, out := Closing, reading := false, trace := e.trace.(out := e.trace.out + 1));
    if e.exited then TimerShut(t) else t
  }

  function TimerShut(e: Exec): Exec {
    e.(timerClosing := true, timer := Closing, role := Idle, trace := e.trace.(timer := e.trace.timer + 1))
  }

  /** libuv is done with a handle: the third one reports, unless a result was reported before, and frees the struct. */
  predicate ClosedOne(e: Exec, t: Exec) {
    if e.closesDone < 2 then t == e.(closesDone := e.closesDone + 1)
    else
      t == e.(closesDone := 3, doneFired := true,
              trace := e.trace.(results := e.trace.results + (if e.doneFired then 0 else 1), freed := true))
  }

  /**
   The exit closes the child's handle, and the timer when the output has ended; else it arms half a second's grace, or
   closes the other two when that fails.  The end of the output closes the pipe; the timeout only marks the command; the
   end of the grace closes the pipe by force; a cancel closes it only behind the exit.
   */
  predicate Does(e: Exec, v: Event, t: Exec) {
    match v
    case Exits(starts) =>
      var x := e.(exited := true, proc := Closing, trace := e.trace.(proc := e.trace.proc + 1));
      if e.out != Open then t == TimerShut(x)
      else if starts then t == x.(graceArmed := true, role := Grace)
      else t == PipeShut(x.(graceArmed := true, graceForced := true))
    case ReadEnds(_) => t == PipeShut(e)
    case TimerFires(_) =>
      if e.role == Timeout then t == e.(role := Idle, timedOut := true)
      else t == PipeShut(e.(graceForced := true))
    case CancelCalled(_) =>
      if e.exited && e.out == Open then t == PipeShut(e.(canceled := true)) else t == e.(canceled := true)
    case ProcClosed => ClosedOne(e.(proc := Gone), t)
    case OutClosed => ClosedOne(e.(out := Gone), t)
    case TimerClosed => ClosedOne(e.(timer := Gone), t)
  }

  lemma StepDoes(e: Exec, v: Event)
    requires Inv(e) && CanHappen(e, v)
    ensures Mirrors(e) && TimerLast(e) && Does(e, v, Next(e, v))
  {
    hide Inv, CloseCallback;
    InvParts(e);
    HandlesLeft(e);
    match v
    case Exits(starts) => ExitDoes(e, starts);
    case ReadEnds(starts) => PipeDoes(e, starts);
    case TimerFires(starts) => TimerDoes(e, starts);
    case CancelCalled(starts) => CancelDoes(e, starts);
    case ProcClosed => ClosedDoes(e, e.(proc := Gone));
    case OutClosed => ClosedDoes(e, e.(out := Gone));
    case TimerClosed => ClosedDoes(e, e.(timer := Gone));
  }

  lemma InvParts(e: Exec)
    requires Inv(e)
    ensures Mirrors(e) && TimerLast(e)
  {
  }

  lemma BeforeExit(e: Exec)
    requires Inv(e) && e.proc == Open
    ensures Mirrors(e) && TimerLast(e) && !e.exited && !e.graceArmed && e.timer == Open && !e.timerClosing
    ensures e.pipeDone <==> e.out != Open
  {
  }

  lemma Joins(x: Exec, starts: bool)
    requires Mirrors(x) && TimerLast(x) && x.exited && x.timer == Open && !x.graceArmed
    ensures MaybeFinish(x, starts)
         == if x.pipeDone then TimerShut(x) else if starts then x.(graceArmed := true, role := Grace)
            else PipeShut(x.(graceArmed := true, graceForced := true))
  {
  }

  lemma ExitDoes(e: Exec, starts: bool)
    requires Inv(e) && e.proc == Open
    ensures Mirrors(e) && TimerLast(e) && Does(e, Exits(starts), Next(e, Exits(starts)))
  {
    hide Inv, MaybeFinish, TimerShut, PipeShut;
    BeforeExit(e);
    Joins(CloseProc(e.(exited := true)), starts);
  }

  lemma HandlesLeft(e: Exec)
    requires Inv(e)
    ensures e.proc == Closing || e.out == Closing || e.timer == Closing ==> e.closesDone < 3
  {
  }

  lemma JoinsDone(x: Exec, starts: bool)
    requires Mirrors(x) && TimerLast(x) && x.pipeDone && x.timer == Open
    ensures MaybeFinish(x, starts) == if x.exited then TimerShut(x) else x
  {
  }

  lemma Shuts(e: Exec, starts: bool)
    requires Mirrors(e) && TimerLast(e)
    ensures ForcePipeClose(e, starts) == if e.out == Open then PipeShut(e) else e
  {
    hide MaybeFinish;
    if e.out == Open { JoinsDone(CloseOut(e.(pipeDone := true)), starts); }
  }

  lemma PipeDoes(e: Exec, starts: bool)
    requires Inv(e) && e.reading && e.out == Open
    ensures Mirrors(e) && TimerLast(e) && Does(e, ReadEnds(starts), Next(e, ReadEnds(starts)))
  {
    hide Inv, ForcePipeClose, PipeShut;
    InvParts(e);
    Shuts(e, starts);
  }

  lemma TimerDoes(e: Exec, starts: bool)
    requires Inv(e) && e.role != Idle && e.timer == Open
    ensures Mirrors(e) && TimerLast(e) && Does(e, TimerFires(starts), Next(e, TimerFires(starts)))
  {
    hide Inv, ForcePipeClose;
    InvParts(e);
    TimerRole(e);
    Shuts(e.(role := Idle, graceForced := true), starts);
  }

  lemma CancelDoes(e: Exec, starts: bool)
    requires Inv(e)
    ensures Mirrors(e) && TimerLast(e) && (!e.doneFired ==>
        Does(e, CancelCalled(starts), Next(e, CancelCalled(starts))))
  {
    hide Inv, ForcePipeClose, PipeShut;
    InvParts(e);
    Shuts(e.(canceled := true), starts);
  }

  /** What the timer was armed for, and when the pipe is still open. */
  lemma TimerRole(e: Exec)
    requires Inv(e)
    ensures e.role != Idle && e.timer == Open ==> (e.role == Grace <==> e.exited) && (e.exited ==> e.out == Open)
  {
  }

  lemma ClosedDoes(e: Exec, gone: Exec)
    requires Inv(e) && gone.closesDone == e.closesDone && e.closesDone < 3
    ensures ClosedOne(gone, CloseCallback(gone))
  {
  }

  // ----- runs -----

  lemma {:induction false} LastStep(e: Exec, events: seq<Event>, v: Event)
    requires Inv(e) && PossibleRun(e, events + [v])
    ensures PossibleRun(e, events)
    ensures var t := AfterRun(e, events);
      Inv(t) && CanHappen(t, v) && Mirrors(t) && TimerLast(t) && AfterRun(e, events + [v]) == Next(t, v)
    decreases |events|
  {
    hide Next, Inv, CanHappen;
    var all := events + [v];
    InvParts(e);
    if events == [] {
      assert all[0] == v && all[1..] == [];
    } else {
      assert all[0] == events[0] && all[1..] == events[1..] + [v];
      EveryStepKeeps(e, events[0]);
      LastStep(Next(e, events[0]), events[1..], v);
    }
  }

  /** Whatever has happened to a command, whatever happens next does what is due and no more. */
  lemma EveryCommandDoes(a: Arming, events: seq<Event>, v: Event)
    requires PossibleCommand(a, events + [v])
    ensures PossibleCommand(a, events)
    ensures Does(AfterCommand(a, events), v, AfterCommand(a, events + [v]))
  {
    hide Inv, Does, Next, Arm;
    ArmedIsSound(a);
    LastStep(Arm(a), events, v);
    StepDoes(AfterCommand(a, events), v);
  }

  /** How a command starts: read and timed; or reported at once, the pipe closed if it cannot be read. */
  lemma ArmDoes(a: Arming)
    ensures var start := Exec(false, false, false, false, false, false, false, false, 0, Open, Open, Open, Idle, false,
        Trace(0, 0, 0, 0, false));
      Arm(a) == match a
        case Armed => start.(reading := true, role := Timeout)
        case ReadFails => PipeShut(start.(doneFired := true, trace := Trace(0, 0, 0, 1, false)))
        case TimerFails => start.(reading := true, doneFired := true, trace := Trace(0, 0, 0, 1, false))
  {
  }

  /** The run has such a callback. */
  predicate HasExit(events: seq<Event>) { exists k :: 0 <= k < |events| && events[k].Exits? }

  predicate HasCancel(events: seq<Event>) { exists k :: 0 <= k < |events| && events[k].CancelCalled? }

  /** The timer fires while the child has not exited. */
  predicate TimesOut(events: seq<Event>) {
    exists k :: 0 <= k < |events| && events[k].TimerFires? && !HasExit(events[..k])
  }

  /** The timer fires, or cannot be armed at the exit, while the child has exited and the pipe is open. */
  predicate GraceEnds(a: Arming, events: seq<Event>)
    requires PossibleCommand(a, events)
  {
    exists k :: 0 <= k < |events| && GraceEndsAt(a, events, k)
  }

  predicate GraceEndsAt(a: Arming, events: seq<Event>, k: nat)
    requires k < |events|
  {
    && PossibleCommand(a, events[..k]) && AfterCommand(a, events[..k]).out == Open
    && ((events[k].TimerFires? && HasExit(events[..k])) || events[k] == Exits(false))
  }

  /** What the result's flags mean: the exit was seen, a cancel, the timeout before the exit, the end of the grace. */
  predicate FlagsMean(a: Arming, events: seq<Event>)
    requires PossibleCommand(a, events)
  {
    var r := AfterCommand(a, events);
    && (r.exited <==> HasExit(events)) && (r.canceled <==> HasCancel(events)) && (r.timedOut <==> TimesOut(events))
    && (r.graceForced <==> GraceEnds(a, events))
  }

  lemma Front(events: seq<Event>, v: Event)
    ensures var all := events + [v];
      && (forall k :: 0 <= k < |events| ==> all[..k] == events[..k] && all[k] == events[k])
      && all[..|events|] == events && all[|events|] == v
  {
  }

  lemma HasSnoc(events: seq<Event>, v: Event)
    ensures HasExit(events + [v]) <==> HasExit(events) || v.Exits?
    ensures HasCancel(events + [v]) <==> HasCancel(events) || v.CancelCalled?
    ensures TimesOut(events + [v]) <==> TimesOut(events) || (v.TimerFires? && !HasExit(events))
  {
    hide HasExit;
    Front(events, v);
    var all := events + [v];
    ExitSnoc(events, v);
    if HasCancel(events) {
      var k :| 0 <= k < |events| && events[k].CancelCalled?;
      assert all[k].CancelCalled?;
    }
    if TimesOut(events) {
      var k :| 0 <= k < |events| && events[k].TimerFires? && !HasExit(events[..k]);
      assert all[k].TimerFires? && !HasExit(all[..k]);
    }
  }

  lemma ExitSnoc(events: seq<Event>, v: Event)
    ensures HasExit(events + [v]) <==> HasExit(events) || v.Exits?
  {
    if HasExit(events) {
      var k :| 0 <= k < |events| && events[k].Exits?;
      assert (events + [v])[k].Exits?;
    }
    if v.Exits? { assert (events + [v])[|events|].Exits?; }
  }

  lemma GraceSnoc(a: Arming, events: seq<Event>, v: Event)
    requires PossibleCommand(a, events + [v]) && PossibleCommand(a, events)
    ensures GraceEnds(a, events + [v]) <==> GraceEnds(a, events) || GraceEndsAt(a, events + [v], |events|)
  {
    hide PossibleCommand, AfterCommand, HasExit;
    Front(events, v);
    var all := events + [v];
    assert forall k :: 0 <= k < |events| ==> (GraceEndsAt(a, all, k) <==> GraceEndsAt(a, events, k));
  }

  lemma {:induction false} FlagsAreMeant(a: Arming, events: seq<Event>)
    requires PossibleCommand(a, events)
    ensures FlagsMean(a, events)
    decreases |events|
  {
    hide PossibleCommand, AfterCommand, Does, HasExit, HasCancel, TimesOut, GraceEnds, GraceEndsAt;
    if events == [] {
      NothingYet(a);
    } else {
      var front, v := events[..|events| - 1], events[|events| - 1];
      assert front + [v] == events;
      EveryCommandDoes(a, front, v);
      FlagsAreMeant(a, front);
      HasSnoc(front, v);
      GraceSnoc(a, front, v);
      FlagsStep(a, front, v);
    }
  }

  lemma NothingYet(a: Arming)
    requires PossibleCommand(a, [])
    ensures FlagsMean(a, [])
  {
  }

  lemma FlagsStep(a: Arming, events: seq<Event>, v: Event)
    requires PossibleCommand(a, events + [v]) && PossibleCommand(a, events)
    requires Does(AfterCommand(a, events), v, AfterCommand(a, events + [v]))
    requires AfterCommand(a, events).exited <==> HasExit(events)
    ensures var e, t := AfterCommand(a, events), AfterCommand(a, events + [v]);
      && t.exited == (e.exited || v.Exits?) && t.canceled == (e.canceled || v.CancelCalled?)
      && t.timedOut == (e.timedOut || (v.TimerFires? && !HasExit(events)))
      && t.graceForced == (e.graceForced || GraceEndsAt(a, events + [v], |events|))
  {
    hide HasExit, AfterCommand, PossibleCommand, Inv, Does, CanHappen;
    Front(events, v);
    StepHappens(a, events, v);
    FlagsSet(AfterCommand(a, events), v, AfterCommand(a, events + [v]));
  }

  lemma FlagsSet(e: Exec, v: Event, t: Exec)
    requires Inv(e) && CanHappen(e, v) && Does(e, v, t)
    ensures FlagsOf(t) == Flags(e.exited || v.Exits?, e.canceled || v.CancelCalled?,
        e.timedOut || (v.TimerFires? && !e.exited),
        e.graceForced || (e.out == Open && ((v.TimerFires? && e.exited) || v == Exits(false))))
  {
    hide Inv, Does;
    match v
    case Exits(starts) => ExitFlags(e, starts, t);
    case ReadEnds(starts) => PipeFlags(e, v, t);
    case TimerFires(starts) => TimerFlags(e, starts, t);
    case CancelCalled(starts) => CancelFlags(e, starts, t);
    case _ => HandleFlags(e, v, t);
  }

  lemma ExitFlags(e: Exec, starts: bool, t: Exec)
    requires Inv(e) && e.proc == Open && Does(e, Exits(starts), t)
    ensures FlagsOf(t) == Flags(true, e.canceled, e.timedOut, e.graceForced || (e.out == Open && !starts))
  {
    hide Inv, PipeShut, TimerShut;
    var x := e.(exited := true, proc := Closing, trace := e.trace.(proc := e.trace.proc + 1));
    ShutFlags(x);
    ShutFlags(x.(graceArmed := true, graceForced := true));
  }

  lemma PipeFlags(e: Exec, v: Event, t: Exec)
    requires v.ReadEnds? && Does(e, v, t)
    ensures FlagsOf(t) == FlagsOf(e)
  {
    hide PipeShut;
    ShutFlags(e);
  }

  lemma TimerFlags(e: Exec, starts: bool, t: Exec)
    requires Inv(e) && CanHappen(e, TimerFires(starts)) && Does(e, TimerFires(starts), t)
    ensures FlagsOf(t) == Flags(e.exited, e.canceled, e.timedOut || !e.exited,
        e.graceForced || (e.out == Open && e.exited))
  {
    hide Inv, PipeShut;
    TimerRole(e);
    ShutFlags(e.(graceForced := true));
  }

  lemma CancelFlags(e: Exec, starts: bool, t: Exec)
    requires Does(e, CancelCalled(starts), t)
    ensures FlagsOf(t) == Flags(e.exited, true, e.timedOut, e.graceForced)
  {
    hide PipeShut;
    ShutFlags(e.(canceled := true));
  }

  lemma HandleFlags(e: Exec, v: Event, t: Exec)
    requires (v.ProcClosed? || v.OutClosed? || v.TimerClosed?) && Does(e, v, t)
    ensures FlagsOf(t) == FlagsOf(e)
  {
    hide ClosedOne;
    match v
    case ProcClosed => ClosedFlags(e.(proc := Gone), t);
    case OutClosed => ClosedFlags(e.(out := Gone), t);
    case TimerClosed => ClosedFlags(e.(timer := Gone), t);
  }

  datatype Flags = Flags(exited: bool, canceled: bool, timedOut: bool, graceForced: bool)

  function FlagsOf(e: Exec): Flags { Flags(e.exited, e.canceled, e.timedOut, e.graceForced) }

  lemma ShutFlags(e: Exec)
    ensures FlagsOf(PipeShut(e)) == FlagsOf(e)
    ensures FlagsOf(TimerShut(e)) == FlagsOf(e)
  {
  }

  lemma ClosedFlags(e: Exec, t: Exec)
    requires ClosedOne(e, t)
    ensures FlagsOf(t) == FlagsOf(e)
  {
    if e.closesDone < 2 {
      assert t == e.(closesDone := e.closesDone + 1);
    } else {
      var r := e.trace.results + (if e.doneFired then 0 else 1);
      assert t == e.(closesDone := 3, doneFired := true, trace := e.trace.(results := r, freed := true));
    }
  }

  lemma StepHappens(a: Arming, events: seq<Event>, v: Event)
    requires PossibleCommand(a, events + [v]) && PossibleCommand(a, events)
    ensures Inv(AfterCommand(a, events)) && CanHappen(AfterCommand(a, events), v)
  {
    hide Inv, CanHappen, Arm;
    ArmedIsSound(a);
    LastStep(Arm(a), events, v);
  }

  // ----- output -----

  /** The output is read in order and without its NUL bytes: of two pieces, and of one byte. */
  lemma TextOf(a: bytes, b: bytes, x: byte)
    ensures Stripped(a + b) == Stripped(a) + Stripped(b)
    ensures Stripped([x]) == if x == 0 then [] else [x]
  {
    Bash.StrippedConcat(a, b);
    assert [x][..0] == [];
    assert Stripped([]) == [];
  }

  /** What is kept of it is its first 64 KiB, and how many bytes were dropped and how many were NUL is known. */
  lemma OutputMeans(stream: bytes)
    ensures var o, text := OutputOf(stream), Stripped(stream);
      && o.kept == text[..|o.kept|] && |o.kept| == (if |text| < 65536 then |text| else 65536)
      && o.dropped == |text| - |o.kept| && o.nuls == |stream| - |text| && o.nuls == multiset(stream)[0]
  {
    StrippedShorter(stream);
    NulsCounted(stream);
  }

  lemma {:induction false} NulsCounted(s: bytes)
    ensures |Stripped(s)| + multiset(s)[0] == |s|
    decreases |s|
  {
    if s != [] {
      var n := |s| - 1;
      NulsCounted(s[..n]);
      assert s == s[..n] + [s[n]];
    }
  }
}
