/** The incremental event-stream decoder of src/mua/sse.c, proved against SseSpec. */
module Sse {
  import opened Bytes
  import opened Memory
  import opened SseSpec
  import opened SseMachine

  datatype Phase = InBom | InLine | Failed | Aborted

  datatype Eof = Clean | Truncated

  /** memchr for both terminators, the nearer one wins; |s| when there is neither. */
  method NearestTerminator(s: bytes) returns (i: nat)
    ensures i == FindTerminator(s)
  {
    var cr, lf := Find(s, CR), Find(s, LF);
    i := if cr < lf then cr else lf;
    assert i < |s| ==> IsTerminator(s[i]);
  }

  class Parser {
    const limits: Limits
    const cb: Callback
    var state: Phase
    var bomMatched: nat
    var pendingLfSkip: bool
    const carry: Buf
    const data: Buf
    const eventType: Buf
    const id: Buf
    var failure: Option<Failure>
    var emitted: seq<Event> // what the callback has been given
    ghost var fed: bytes    // every byte since construction or reset

    ghost const Repr: set<object> := {this, carry, data, eventType, id}

    ghost predicate Wired()
      reads Repr
    {
      && carry.Valid() && data.Valid() && eventType.Valid() && id.Valid()
      && carry != data && carry != eventType && carry != id
      && data != eventType && data != id && eventType != id
      && carry.max == limits.maxLine && data.max == limits.maxData
      && eventType.max == limits.maxType && id.max == limits.maxId
      && (failure.Some? <==> state.Failed? || state.Aborted?)
      && (state.Aborted? ==> failure == Some(Refused))
    }

    ghost function It(): Interp
      requires Wired()
      reads Repr
    {
      if failure.Some? then Stopped(failure.value, emitted)
      else Running(data.Contents(), eventType.Contents(), id.Contents(), emitted)
    }

    /** The parser's state in the terms of SseSpec. */
    ghost function Abs(): State
      requires Wired()
      reads Repr
    {
      if failure.Some? then Dead(failure.value, emitted)
      else Live(bomMatched, state.InBom?, pendingLfSkip, carry.Contents(), It())
    }

    ghost predicate Valid()
      reads Repr
    {
      && Wired()
      && Sound(limits, Abs())
      && Abs() == Decode(limits, cb, fed)
    }

    constructor (limits: Limits, cb: Callback)
      ensures Valid() && fresh(Repr)
      ensures this.limits == limits && this.cb == cb && fed == []
    {
      this.limits := limits;
      this.cb := cb;
      state, bomMatched, pendingLfSkip := InBom, 0, false;
      carry := new Buf(limits.maxLine);
      data := new Buf(limits.maxData);
      eventType := new Buf(limits.maxType);
      id := new Buf(limits.maxId);
      failure, emitted, fed := None, [], [];
    }

    method Fail(why: Failure)
      requires Wired() && It().Running?
      modifies this`state, this`failure
      ensures Wired() && It() == Stopped(why, emitted) && state.Failed?
    {
      state, failure := Failed, Some(why);
    }

    method DispatchEvent() returns (keepGoing: bool)
      requires Wired() && It().Running? && state.InLine?
      modifies this`state, this`failure, this`emitted, data, eventType
      ensures Wired()
      ensures It() == Dispatch(cb, old(It()))
      ensures keepGoing <==> It().Running?
      ensures keepGoing ==> state == old(state)
      ensures carry.Contents() == old(carry.Contents())
    {
      if data.size == 0 {
        eventType.Reset();
        return true;
      }
      data.size := data.size - 1; // the newline that the last data line appended
      assert data.Contents() == old(data.Contents())[..|old(data.Contents())| - 1];
      var kind := if eventType.size > 0 then eventType.Contents() else DEFAULT_TYPE;
      emitted := emitted + [Event(kind, data.Contents(), id.Contents())];
      keepGoing := cb(emitted);
      data.Reset();
      eventType.Reset();
      if !keepGoing {
        state, failure := Aborted, Some(Refused);
      }
    }

    method ProcessField(name: bytes, value: bytes) returns (ok: bool)
      requires Wired() && It().Running? && state.InLine?
      modifies this`state, this`failure, data, eventType, id
      ensures Wired()
      ensures It() == Field(limits, old(It()), name, value)
      ensures ok <==> It().Running?
      ensures ok ==> state == old(state)
      ensures carry.Contents() == old(carry.Contents())
    {
      if name == FIELD_DATA {
        ghost var before := data.Contents();
        var fits := data.Append(value);
        if fits {
          fits := data.Append([LF]);
        }
        if !fits {
          Fail(DataTooLong);
          return false;
        }
      } else if name == FIELD_EVENT {
        eventType.Reset();
        var fits := eventType.Append(value);
        if !fits {
          Fail(TypeTooLong);
          return false;
        }
        assert eventType.Contents() == value;
      } else if name == FIELD_ID {
        if Find(value, NUL) == |value| {
          id.Reset();
          var fits := id.Append(value);
          if !fits {
            Fail(IdTooLong);
            return false;
          }
          assert id.Contents() == value;
        }
      }
      return true;
    }

    method ProcessLine(line: bytes) returns (ok: bool)
      requires Wired() && It().Running? && state.InLine? && |line| <= limits.maxLine
      modifies this`state, this`failure, this`emitted, data, eventType, id
      ensures Wired()
      ensures It() == Line(limits, cb, old(It()), line)
      ensures ok <==> It().Running?
      ensures ok ==> state == old(state)
      ensures carry.Contents() == old(carry.Contents())
    {
      if |line| == 0 {
        ok := DispatchEvent();
        return;
      }
      if line[0] == COLON {
        return true;
      }
      var nameLen := Find(line, COLON);
      var value := [];
      if nameLen < |line| {
        value := line[nameLen + 1..];
        if |value| > 0 && value[0] == SPACE {
          value := value[1..];
        }
      }
      ok := ProcessField(line[..nameLen], value);
    }

    /** Not a mark after all: the matched prefix is line content. */
    method BomMismatch() returns (ok: bool)
      requires Wired() && It().Running? && state.InBom? && bomMatched < 3 && carry.Contents() == []
      modifies this`state, this`failure, this`bomMatched, carry
      ensures Wired() && It().Running? == ok
      ensures Abs() == if old(bomMatched) > limits.maxLine then Dead(LineTooLong, emitted)
                       else Live(0, false, pendingLfSkip, BOM[..old(bomMatched)], old(It()))
    {
      ok := carry.Append(BOM[..bomMatched]);
      if !ok {
        Fail(LineTooLong);
        return;
      }
      assert [] + BOM[..bomMatched] == BOM[..bomMatched];
      bomMatched := 0;
      state := InLine;
    }

    /** Matches the byte-order mark; on a mismatch the matched bytes become content. */
    method BomStep(bytes: bytes, cursor: nat, ghost goal: State) returns (ok: bool, next: nat)
      requires Wired() && Sound(limits, Abs()) && Abs().Live? && state.InBom? && cursor < |bytes|
      requires Run(limits, cb, Abs(), bytes[cursor..]) == goal
      modifies this`state, this`failure, this`bomMatched, carry
      ensures Wired() && Sound(limits, Abs())
      ensures cursor <= next <= |bytes|
      ensures ok && next < |bytes| ==> state.InLine?
      ensures if ok then Abs().Live? && Run(limits, cb, Abs(), bytes[next..]) == goal else Abs().Dead? && Abs() == goal
    {
      hide Run;
      next := cursor;
      while next < |bytes| && state.InBom?
        invariant cursor <= next <= |bytes|
        invariant Wired() && Sound(limits, Abs()) && Abs().Live?
        invariant Run(limits, cb, Abs(), bytes[next..]) == goal
        decreases |bytes| - next, if state.InBom? then 1 else 0
      {
        RunBom(limits, cb, Abs(), bytes[next..]);
        assert bytes[next..][1..] == bytes[next + 1..];
        if bytes[next] == BOM[bomMatched] {
          bomMatched := bomMatched + 1;
          next := next + 1;
          if bomMatched == 3 {
            state := InLine;
          }
        } else {
          ok := BomMismatch();
          if !ok {
            return;
          }
        }
      }
      ok := true;
    }

    /** The whole current line: the span itself when nothing is carried, else the carry completed. */
    method TakeLine(span: bytes) returns (ok: bool, line: bytes)
      requires Wired() && It().Running? && state.InLine?
      modifies carry, this`state, this`failure
      ensures Wired()
      ensures line == old(carry.Contents()) + span
      ensures ok <==> |line| <= limits.maxLine
      ensures if ok then state.InLine? && It() == old(It()) else It() == Stopped(LineTooLong, emitted)
    {
      line := carry.Contents() + span;
      if carry.size > 0 {
        ok := carry.Append(span);
      } else {
        ok := |span| <= limits.maxLine;
      }
      if !ok {
        Fail(LineTooLong);
      }
    }

    /** The terminator after `span` was found: interpret the whole line and drop the carry. */
    method EndLine(span: bytes) returns (ok: bool)
      requires Wired() && It().Running? && state.InLine?
      modifies this`state, this`failure, this`emitted, carry, data, eventType, id
      ensures Wired()
      ensures It() == Line(limits, cb, old(It()), old(carry.Contents()) + span)
      ensures ok <==> It().Running?
      ensures ok ==> state.InLine? && carry.Contents() == []
    {
      var line;
      ok, line := TakeLine(span);
      if ok {
        ok := ProcessLine(line);
        if ok {
          carry.Reset();
        }
      }
    }

    /** No terminator in sight: the rest of the feed is carried over. */
    method CarryTail(span: bytes, ghost goal: State) returns (ok: bool)
      requires Wired() && Sound(limits, Abs()) && Abs().Live? && state.InLine? && !pendingLfSkip
      requires FindTerminator(span) == |span| && Run(limits, cb, Abs(), span) == goal
      modifies this`state, this`failure, carry
      ensures Wired() && Sound(limits, Abs())
      ensures if ok then Abs().Live? && state.InLine? && Run(limits, cb, Abs(), []) == goal
              else Abs().Dead? && Abs() == goal
    {
      RunContent(limits, cb, Abs(), span);
      ok := carry.Append(span);
      if !ok { Fail(LineTooLong); }
    }

    /** Consumes one line, or the unterminated tail, of bytes[cursor..]. */
    method ScanLine(bytes: bytes, cursor: nat, ghost goal: State) returns (ok: bool, next: nat)
      requires Wired() && Sound(limits, Abs()) && Abs().Live? && state.InLine? && cursor < |bytes|
      requires !pendingLfSkip
      requires Run(limits, cb, Abs(), bytes[cursor..]) == goal
      modifies this`state, this`failure, this`emitted, this`pendingLfSkip, carry, data, eventType, id
      ensures Wired() && Sound(limits, Abs())
      ensures next <= |bytes| && (ok ==> cursor < next && state.InLine? && (next < |bytes| ==> !pendingLfSkip))
      ensures if ok then Abs().Live? && Run(limits, cb, Abs(), bytes[next..]) == goal else Abs().Dead? && Abs() == goal
    {
      var span := bytes[cursor..];
      var termAt := NearestTerminator(span);
      next := cursor;
      if termAt == |span| {
        ok := CarryTail(span, goal);
        assert bytes[|bytes|..] == [];
        return ok, if ok then |bytes| else next;
      }
      ok, next := ConsumeLine(bytes, cursor, termAt, goal);
    }

    /** The line that ends at the terminator `termAt` bytes on, and the terminator. */
    method ConsumeLine(bytes: bytes, cursor: nat, termAt: nat, ghost goal: State) returns (ok: bool, next: nat)
      requires Wired() && Sound(limits, Abs()) && Abs().Live? && state.InLine? && !pendingLfSkip
      requires cursor <= |bytes| && termAt == FindTerminator(bytes[cursor..]) < |bytes[cursor..]|
      requires Run(limits, cb, Abs(), bytes[cursor..]) == goal
      modifies this`state, this`failure, this`emitted, this`pendingLfSkip, carry, data, eventType, id
      ensures Wired() && Sound(limits, Abs())
      ensures next <= |bytes| && (ok ==> cursor < next && state.InLine? && (next < |bytes| ==> !pendingLfSkip))
      ensures if ok then Abs().Live? && Run(limits, cb, Abs(), bytes[next..]) == goal else Abs().Dead? && Abs() == goal
    {
      hide Run, FindTerminator;
      var span := bytes[cursor..];
      RunLine(limits, cb, Abs(), span);
      ghost var it, bom := It(), bomMatched;
      ghost var line := carry.Contents() + span[..termAt];
      ok := EndLine(span[..termAt]);
      ghost var settled := Settle(bom, span[termAt] == CR, [], Line(limits, cb, it, line));
      next := cursor + termAt + 1;
      assert span[termAt + 1..] == bytes[next..];
      if !ok {
        if |line| <= limits.maxLine {
          DeadStays(limits, cb, settled, bytes[next..]);
        }
        return;
      }
      if span[termAt] == CR {
        next := AfterReturn(bytes, next, settled, goal);
      }
    }

    /** A carriage return was consumed just before `at`: a line feed here, or opening the next feed, is part of it. */
    method AfterReturn(bytes: bytes, at: nat, ghost settled: State, ghost goal: State) returns (next: nat)
      requires Wired() && failure == None && at <= |bytes| && !pendingLfSkip
      requires Sound(limits, settled) && settled.Live? && settled.skipLf && Abs() == settled.(skipLf := false)
      requires Run(limits, cb, settled, bytes[at..]) == goal
      modifies this`pendingLfSkip
      ensures Wired() && Sound(limits, Abs()) && Abs().Live?
      ensures at <= next <= |bytes| && (next < |bytes| ==> !pendingLfSkip)
      ensures Run(limits, cb, Abs(), bytes[next..]) == goal
    {
      next := at;
      if at < |bytes| {
        RunAfterReturn(limits, cb, settled, bytes[at..]);
        assert bytes[at..][1..] == bytes[at + 1..];
        if bytes[at] == LF {
          next := at + 1;
        }
      } else {
        pendingLfSkip := true;
      }
    }

    /** A line feed opening this feed belongs to the carriage return that closed the last one. */
    method SkipPending(bytes: bytes, ghost goal: State) returns (cursor: nat)
      requires Wired() && Sound(limits, Abs()) && Abs().Live?
      requires Run(limits, cb, Abs(), bytes) == goal
      modifies this`pendingLfSkip
      ensures Wired() && Sound(limits, Abs()) && Abs().Live?
      ensures cursor <= |bytes| && (cursor < |bytes| ==> !pendingLfSkip)
      ensures Run(limits, cb, Abs(), bytes[cursor..]) == goal
    {
      assert bytes[0..] == bytes;
      cursor := 0;
      if pendingLfSkip && |bytes| > 0 {
        RunAfterReturn(limits, cb, Abs(), bytes);
        pendingLfSkip := false;
        if bytes[0] == LF {
          cursor := 1;
        }
      }
    }

    /** The feed's loop over a live parser. */
    method Consume(bytes: bytes, start: nat, ghost goal: State) returns (ok: bool)
      requires Wired() && Sound(limits, Abs()) && Abs().Live? && start <= |bytes|
      requires start < |bytes| ==> !pendingLfSkip
      requires Run(limits, cb, Abs(), bytes[start..]) == goal
      modifies this`state, this`failure, this`emitted, this`pendingLfSkip, this`bomMatched, carry, data, eventType, id
      ensures Wired() && Sound(limits, Abs()) && Abs() == goal && (ok <==> goal.Live?)
    {
      var cursor := start;
      while cursor < |bytes|
        invariant cursor <= |bytes|
        invariant Wired() && Sound(limits, Abs()) && Abs().Live?
        invariant cursor < |bytes| ==> !pendingLfSkip
        invariant Run(limits, cb, Abs(), bytes[cursor..]) == goal
        decreases |bytes| - cursor, if state.InBom? then 1 else 0
      {
        if state.InBom? {
          ok, cursor := BomStep(bytes, cursor, goal);
        } else {
          ok, cursor := ScanLine(bytes, cursor, goal);
        }
        if !ok {
          return;
        }
      }
      ok := true;
    }

    /** Consumes all of `bytes`: the state afterwards is that of the whole stream read at once. */
    method Feed(bytes: bytes) returns (ok: bool, err: Option<Failure>)
      requires Valid()
      modifies Repr
      ensures Valid()
      ensures fed == old(fed) + bytes
      ensures Abs() == Decode(limits, cb, fed)
      ensures ok <==> Abs().Live?
      ensures err == if ok then None else Some(Abs().why)
    {
      hide Decode, Run;
      DecodeContinues(limits, cb, fed, bytes);
      ghost var all := fed + bytes;
      ghost var goal := Decode(limits, cb, all);
      assert Run(limits, cb, Abs(), bytes) == goal;
      if state.Failed? || state.Aborted? {
        DeadStays(limits, cb, Abs(), bytes);
        fed := all;
        return false, failure;
      }
      var cursor := SkipPending(bytes, goal);
      ok := Consume(bytes, cursor, goal);
      fed := all;
      err := failure;
    }

    method Finish() returns (eof: Eof)
      requires Valid()
      ensures eof == Verdict(Decode(limits, cb, fed))
    {
      if state.Failed? || state.Aborted? {
        return Truncated;
      }
      if carry.size > 0 || data.size > 0 || bomMatched > 0 {
        return Truncated;
      }
      return Clean;
    }

    method ResetBuffers()
      requires Wired()
      modifies carry, data, eventType, id
      ensures Wired()
      ensures carry.Contents() == [] && data.Contents() == [] && eventType.Contents() == [] && id.Contents() == []
    {
      carry.Reset();
      data.Reset();
      eventType.Reset();
      id.Reset();
    }

    method Reset()
      requires Wired()
      modifies Repr
      ensures Valid() && fed == []
    {
      hide Decode, Run;
      NothingRead(limits, cb);
      ResetBuffers();
      state, bomMatched, pendingLfSkip, failure := InBom, 0, false, None;
      emitted, fed := [], [];
    }
  }

  lemma NothingRead(lim: Limits, cb: Callback)
    ensures Decode(lim, cb, []) == START
  {
  }

  function Verdict(st: State): Eof {
    if st.Dead? || st.line != [] || st.it.Stopped? || st.it.data != [] || st.bom > 0 then Truncated else Clean
  }
}
