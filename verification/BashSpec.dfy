/**
 The bash tool of src/mua/tools.c: three loop handles that close in any order, one result, one release.
 */
module BashSpec {
  import opened Bytes

  const OUTPUT_CAP := 65536

  datatype Handle = Open | Closing | Gone

  /** What the one timer is armed for. */
  datatype Role = Idle | Timeout | Grace

  /** What was done to the outside: calls of uv_close per handle, calls of done, and the release. */
  datatype Trace = Trace(proc: nat, out: nat, timer: nat, results: nat, freed: bool)

  /**
   ToolExec and its handles.  `reading` says whether reads are started.
   */
  datatype Exec = Exec(
    exited: bool, pipeDone: bool, timedOut: bool, canceled: bool, doneFired: bool,
    timerClosing: bool, graceArmed: bool, graceForced: bool, closesDone: nat,
    proc: Handle, out: Handle, timer: Handle, role: Role, reading: bool,
    trace: Trace)

  /** uv_close of an open handle.  Closing a handle twice is an error of the caller. */
  predicate CanClose(h: Handle) { h == Open }

  function CloseProc(e: Exec): Exec
    requires CanClose(e.proc)
  {
    e.(proc := Closing, trace := e.trace.(proc := e.trace.proc + 1))
  }

  function CloseOut(e: Exec): Exec
    requires CanClose(e.out)
  {
    e.(out := Closing, reading := false, trace := e.trace.(out := e.trace.out + 1))
  }

  function CloseTimer(e: Exec): Exec
    requires CanClose(e.timer)
  {
    e.(timer := Closing, role := Idle, trace := e.trace.(timer := e.trace.timer + 1))
  }

  /** The flags mirror the handles: a handle is closed exactly when its flag says so. */
  predicate Mirrors(e: Exec) {
    && (e.exited <==> e.proc != Open)
    && (e.pipeDone <==> e.out != Open)
    && (e.timerClosing <==> e.timer != Open)
  }

  /** The timer goes last: it is closed only once the child has exited and the pipe is done. */
  predicate TimerLast(e: Exec) { e.timer != Open ==> e.exited && e.pipeDone }

  /** bash_maybe_finish; `starts` says whether the grace timer can be armed. */
  function MaybeFinish(e: Exec, starts: bool): Exec
    requires Mirrors(e) && TimerLast(e)
  {
    if !e.exited then e
    else if e.pipeDone then
      if e.timerClosing then e else CloseTimer(e.(timerClosing := true))
    else if e.graceArmed then e
    else if starts then e.(graceArmed := true, role := Grace)
    else CloseTimer(CloseOut(e.(graceArmed := true, graceForced := true, pipeDone := true)).(timerClosing := true))
  }

  /** bash_force_pipe_close. */
  function ForcePipeClose(e: Exec, starts: bool): Exec
    requires Mirrors(e) && TimerLast(e)
  {
    hide MaybeFinish;
    if e.pipeDone then e else MaybeFinish(CloseOut(e.(pipeDone := true)), starts)
  }

  datatype Event =
    | Exits(starts: bool)
    | ReadEnds(starts: bool)
    | TimerFires(starts: bool)
    | CancelCalled(starts: bool)
    | ProcClosed
    | OutClosed
    | TimerClosed

  /** What the loop may still call back, or the agent still call. */
  predicate CanHappen(e: Exec, v: Event) {
    match v
    case Exits(_) => e.proc == Open
    case ReadEnds(_) => e.reading && e.out == Open
    case TimerFires(_) => e.role != Idle && e.timer == Open
    case CancelCalled(_) => !e.doneFired
    case ProcClosed => e.proc == Closing
    case OutClosed => e.out == Closing
    case TimerClosed => e.timer == Closing
  }

  /** bash_close_cb, once libuv is done with a handle: the third one reports the result and frees the struct. */
  function CloseCallback(e: Exec): Exec {
    var c := e.(closesDone := e.closesDone + 1);
    if c.closesDone < 3 then c
    else c.(doneFired := true, trace := c.trace.(results := c.trace.results + (if c.doneFired then 0 else 1),
        freed := true))
  }

  function Next(e: Exec, v: Event): Exec
    requires Mirrors(e) && TimerLast(e) && CanHappen(e, v)
  {
    hide MaybeFinish, ForcePipeClose, CloseCallback;
    match v
    case Exits(starts) => MaybeFinish(CloseProc(e.(exited := true)), starts)
    case ReadEnds(starts) => ForcePipeClose(e, starts)
    case TimerFires(starts) =>
      var fired := e.(role := Idle);
      if e.role == Grace then ForcePipeClose(fired.(graceForced := true), starts)
      else if fired.exited then fired
      else fired.(timedOut := true)
    case CancelCalled(starts) =>
      var c := e.(canceled := true);
      if c.exited then ForcePipeClose(c, starts) else c
    case ProcClosed => CloseCallback(e.(proc := Gone))
    case OutClosed => CloseCallback(e.(out := Gone))
    case TimerClosed => CloseCallback(e.(timer := Gone))
  }

  /** A spawned child, before anything is armed. */
  const SPAWNED := Exec(false, false, false, false, false, false, false, false, 0, Open, Open, Open, Idle, false,
    Trace(0, 0, 0, 0, false))

  /** bash_arm: what reading and the timeout come to. */
  datatype Arming = Armed | ReadFails | TimerFails

  function Arm(a: Arming): Exec {
    match a
    case Armed => SPAWNED.(reading := true, role := Timeout)
    case ReadFails => CloseOut(SPAWNED.(doneFired := true, pipeDone := true, trace := Trace(0, 0, 0, 1, false)))
    case TimerFails => SPAWNED.(reading := true, doneFired := true, trace := Trace(0, 0, 0, 1, false))
  }

  // ----- output -----

  /** The bytes that are not NUL. */
  function Stripped(s: bytes): bytes {
    if s == [] then [] else Stripped(s[..|s| - 1]) + (if s[|s| - 1] == NUL then [] else [s[|s| - 1]])
  }

  datatype Output = Output(kept: bytes, dropped: nat, nuls: nat)

  /** What is kept of a stream, and what is counted instead. */
  function OutputOf(stream: bytes): Output {
    var text := Stripped(stream);
    var kept := if |text| <= OUTPUT_CAP then text else text[..OUTPUT_CAP];
    StrippedShorter(stream);
    Output(kept, |text| - |kept|, |stream| - |text|)
  }

  lemma {:induction false} StrippedShorter(s: bytes)
    ensures |Stripped(s)| <= |s|
    decreases |s|
  {
    if s != [] { StrippedShorter(s[..|s| - 1]); }
  }
}
