/** The bash tool's object: its callbacks and the output it keeps. */
module Bash {
  import opened Bytes
  import opened Memory
  import opened BashSpec
  import opened BashLaws

  // ----- the close join -----

  /** ToolExec's flags and handles. */
  class ToolExec {
    var exited: bool
    var pipeDone: bool
    var timedOut: bool
    var canceled: bool
    var doneFired: bool
    var timerClosing: bool
    var graceArmed: bool
    var graceForced: bool
    var closesDone: nat
    var proc: Handle
    var out: Handle
    var timer: Handle
    var role: Role
    var reading: bool
    ghost var trace: Trace

    ghost function Abs(): Exec
      reads this
    {
      Exec(exited, pipeDone, timedOut, canceled, doneFired, timerClosing, graceArmed, graceForced, closesDone,
           proc, out, timer, role, reading, trace)
    }

    /** A successful spawn, then bash_arm. */
    constructor (a: Arming)
      ensures Abs() == Arm(a) && Inv(Abs())
    {
      exited, timedOut, canceled, timerClosing, graceArmed, graceForced := false, false, false, false, false, false;
      doneFired, pipeDone := a != Armed, a == ReadFails;
      closesDone, proc, timer := 0, Open, Open;
      out := if a == ReadFails then Closing else Open;
      reading := a != ReadFails;
      role := if a == Armed then Timeout else Idle;
      trace := Trace(0, if a == ReadFails then 1 else 0, 0, if a == Armed then 0 else 1, false);
    }

    /** uv_close of the pipe; reads stop. */
    method CloseOut()
      requires CanClose(out)
      modifies this`out, this`reading, this`trace
      ensures Abs() == BashSpec.CloseOut(old(Abs()))
    {
      out, reading := Closing, false;
      trace := trace.(out := trace.out + 1);
    }

    method CloseTimer()
      requires CanClose(timer)
      modifies this`timer, this`role, this`trace
      ensures Abs() == BashSpec.CloseTimer(old(Abs()))
    {
      timer, role := Closing, Idle;
      trace := trace.(timer := trace.timer + 1);
    }

    method CloseProc()
      requires CanClose(proc)
      modifies this`proc, this`trace
      ensures Abs() == BashSpec.CloseProc(old(Abs()))
    {
      proc := Closing;
      trace := trace.(proc := trace.proc + 1);
    }

    /** bash_maybe_finish: no handle it closes is closed already. */
    method MaybeFinish(starts: bool)
      requires Mirrors(Abs()) && TimerLast(Abs())
      modifies this
      ensures Abs() == BashSpec.MaybeFinish(old(Abs()), starts)
    {
      if !exited { return; }
      if pipeDone {
        if !timerClosing {
          timerClosing := true;
          CloseTimer();
        }
        return;
      }
      if !graceArmed {
        graceArmed := true;
        if starts {
          role := Grace;
        } else {
          GiveUpWaiting();
        }
      }
    }

    /** The end of bash_maybe_finish when the grace timer cannot be armed: both remaining handles are closed. */
    method GiveUpWaiting()
      requires CanClose(out) && CanClose(timer)
      modifies this`graceForced, this`pipeDone, this`timerClosing, this`out, this`reading, this`timer, this`role,
          this`trace
      ensures Abs() == BashSpec.CloseTimer(BashSpec.CloseOut(old(Abs()).(graceForced := true,
          pipeDone := true)).(timerClosing := true))
    {
      graceForced, pipeDone := true, true;
      CloseOut();
      timerClosing := true;
      CloseTimer();
    }

    /** bash_force_pipe_close. */
    method ForcePipeClose(starts: bool)
      requires Mirrors(Abs()) && TimerLast(Abs())
      modifies this
      ensures Abs() == BashSpec.ForcePipeClose(old(Abs()), starts)
    {
      hide BashSpec.MaybeFinish;
      if pipeDone { return; }
      pipeDone := true;
      CloseOut();
      MaybeFinish(starts);
    }

    /** bash_exit_cb. */
    method OnExit(starts: bool)
      requires Mirrors(Abs()) && TimerLast(Abs()) && CanHappen(Abs(), Exits(starts))
      modifies this
      ensures Abs() == Next(old(Abs()), Exits(starts))
    {
      hide BashSpec.MaybeFinish;
      exited := true;
      CloseProc();
      MaybeFinish(starts);
    }

    /** bash_read_cb at the end of the output. */
    method OnReadEnd(starts: bool)
      requires Mirrors(Abs()) && TimerLast(Abs()) && CanHappen(Abs(), ReadEnds(starts))
      modifies this
      ensures Abs() == Next(old(Abs()), ReadEnds(starts))
    {
      hide BashSpec.ForcePipeClose;
      ForcePipeClose(starts);
    }

    /** bash_timeout_cb or bash_grace_cb, whichever the timer is armed for. */
    method OnTimer(starts: bool)
      requires Mirrors(Abs()) && TimerLast(Abs()) && CanHappen(Abs(), TimerFires(starts))
      modifies this
      ensures Abs() == Next(old(Abs()), TimerFires(starts))
    {
      hide BashSpec.ForcePipeClose;
      var grace := role == Grace;
      role := Idle;
      if grace {
        graceForced := true;
        ForcePipeClose(starts);
      } else if !exited {
        timedOut := true;
      }
    }

    /** tools_cancel. */
    method Cancel(starts: bool)
      requires Mirrors(Abs()) && TimerLast(Abs()) && CanHappen(Abs(), CancelCalled(starts))
      modifies this
      ensures Abs() == Next(old(Abs()), CancelCalled(starts))
    {
      hide BashSpec.ForcePipeClose;
      canceled := true;
      if !exited { return; }
      ForcePipeClose(starts);
    }

    /** bash_close_cb: the third call reports the result and frees the struct. */
    method CloseDone()
      modifies this`closesDone, this`doneFired, this`trace
      ensures Abs() == CloseCallback(old(Abs()))
    {
      closesDone := closesDone + 1;
      if closesDone < 3 { return; }
      if !doneFired {
        doneFired := true;
        trace := trace.(results := trace.results + 1);
      }
      trace := trace.(freed := true);
    }

    /** libuv is done with one of the three handles. */
    method OnClosed(v: Event)
      requires v == ProcClosed || v == OutClosed || v == TimerClosed
      requires Mirrors(Abs()) && TimerLast(Abs()) && CanHappen(Abs(), v)
      modifies this
      ensures Abs() == Next(old(Abs()), v)
    {
      hide CloseCallback, Mirrors, TimerLast;
      ghost var e := Abs();
      if v == ProcClosed {
        proc := Gone;
      } else if v == OutClosed {
        out := Gone;
      } else {
        timer := Gone;
      }
      CloseDone();
    }

    /** Any callback that can come, in any order: the join is kept, and the promises with it. */
    method Step(v: Event)
      requires Inv(Abs()) && CanHappen(Abs(), v)
      modifies this
      ensures Abs() == Next(old(Abs()), v) && Inv(Abs()) && Promised(Abs())
    {
      EveryStepKeeps(Abs(), v);
      SoundIsPromised(Next(Abs(), v));
      Mirrored();
      hide Abs, Next, Inv, Promised, Mirrors, TimerLast, CanHappen;
      match v {
        case Exits(starts) => OnExit(starts);
        case ReadEnds(starts) => OnReadEnd(starts);
        case TimerFires(starts) => OnTimer(starts);
        case CancelCalled(starts) => Cancel(starts);
        case _ => OnClosed(v);
      }
    }

    lemma Mirrored()
      requires Inv(Abs())
      ensures Mirrors(Abs()) && TimerLast(Abs())
    {
    }
  }

  // ----- output -----

  lemma {:induction false} StrippedConcat(a: bytes, b: bytes)
    ensures Stripped(a + b) == Stripped(a) + Stripped(b)
    decreases |b|
  {
    if b == [] {
      assert a + b == a;
    } else {
      StrippedConcat(a, b[..|b| - 1]);
      assert (a + b)[..|a + b| - 1] == a + b[..|b| - 1];
    }
  }

  lemma {:induction false} StrippedText(s: bytes)
    requires NUL !in s
    ensures Stripped(s) == s
    decreases |s|
  {
    if s != [] { StrippedText(s[..|s| - 1]); }
  }

  /** The output a tool keeps and the bytes it only counts; `stream` is everything that was read. */
  class Captured {
    const output: Buf
    var dropped: nat
    var nuls: nat
    ghost var stream: bytes

    ghost predicate Valid()
      reads this, output
    {
      output.Valid() && output.max == OUTPUT_CAP && Output(output.Contents(), dropped, nuls) == OutputOf(stream)
    }

    constructor ()
      ensures Valid() && stream == [] && fresh(output)
    {
      output := new Buf(OUTPUT_CAP);
      dropped, nuls, stream := 0, 0, [];
    }

    /** bash_append_output: whatever the chunks, the first 64 KiB of the text are kept and the rest is counted. */
    method AppendOutput(chunk: bytes)
      requires Valid()
      modifies this, output
      ensures Valid() && stream == old(stream) + chunk
    {
      hide Stripped;
      var pos := 0;
      ghost var before := stream;
      assert before + chunk[..0] == before;
      while pos < |chunk|
        invariant pos <= |chunk| && Valid() && stream == before + chunk[..pos]
      {
        var seg := Find(chunk[pos..], NUL);
        ghost var piece := chunk[pos..pos + seg];
        if seg > 0 {
          assert NUL !in piece by { assert forall i :: 0 <= i < seg ==> piece[i] == chunk[pos..][i]; }
          TakeSegment(chunk[pos..pos + seg]);
          assert before + chunk[..pos] + piece == before + chunk[..pos + seg];
          pos := pos + seg;
        }
        if pos < |chunk| {
          SkipNul();
          assert chunk[pos] == NUL;
          assert before + chunk[..pos] + [NUL] == before + chunk[..pos + 1];
          pos := pos + 1;
        }
      }
      assert chunk[..pos] == chunk;
    }

    /** A run of text: as much of it as there is room for. */
    method TakeSegment(text: bytes)
      requires Valid() && NUL !in text
      modifies this`dropped, this`stream, output
      ensures Valid() && stream == old(stream) + text
    {
      hide Stripped;
      var seg := |text|;
      var room := if output.size < output.max then output.max - output.size else 0;
      var take := if seg < room then seg else room;
      Grow(stream, text);
      if take > 0 {
        var _ := output.Append(text[..take]);
      }
      dropped := dropped + (seg - take);
      stream := stream + text;
    }

    method SkipNul()
      requires Valid()
      modifies this`nuls, this`stream
      ensures Valid() && stream == old(stream) + [NUL]
    {
      hide Stripped;
      SkipOne(stream);
      nuls := nuls + 1;
      stream := stream + [NUL];
    }
  }

  lemma Grow(stream: bytes, piece: bytes)
    requires NUL !in piece
    ensures var before, after := OutputOf(stream), OutputOf(stream + piece);
            var room := OUTPUT_CAP - |before.kept|;
            var take := if |piece| < room then |piece| else room;
            && after.kept == before.kept + piece[..take] && after.dropped == before.dropped + (|piece| - take)
            && after.nuls == before.nuls && |before.kept| <= OUTPUT_CAP
  {
    hide Stripped;
    StrippedConcat(stream, piece);
    StrippedText(piece);
    StrippedShorter(stream);
  }

  lemma SkipOne(stream: bytes)
    ensures OutputOf(stream + [NUL]) == OutputOf(stream).(nuls := OutputOf(stream).nuls + 1)
  {
    assert (stream + [NUL])[..|stream|] == stream;
    assert Stripped(stream) + [] == Stripped(stream);
    StrippedShorter(stream);
  }

  /** Nothing that is read goes uncounted. */
  lemma OutputAddsUp(stream: bytes)
    ensures |OutputOf(stream).kept| + OutputOf(stream).dropped + OutputOf(stream).nuls == |stream|
    ensures OutputOf(stream).dropped > 0 ==> |OutputOf(stream).kept| == OUTPUT_CAP
    ensures NUL !in OutputOf(stream).kept
  {
    StrippedShorter(stream);
    NoNulLeft(stream);
  }

  lemma {:induction false} NoNulLeft(s: bytes)
    ensures NUL !in Stripped(s)
    decreases |s|
  {
    if s != [] { NoNulLeft(s[..|s| - 1]); }
  }
}
