/** What the decoder promises over whole streams. */
module SseLaws {
  import opened Bytes
  import opened SseSpec
  import opened SseMachine
  import opened Sse

  // ----- chunking -----

  /** One parser fed chunk by chunk. */
  method FeedChunks(parser: Parser, chunks: seq<bytes>) returns (ok: bool, err: Option<Failure>, eof: Eof)
    requires parser.Valid() && parser.fed == []
    modifies parser.Repr
    ensures parser.Valid() && parser.fed == Joined(chunks)
    ensures parser.Abs() == Decode(parser.limits, parser.cb, Joined(chunks))
    ensures ok <==> parser.Abs().Live?
    ensures err == if ok then None else Some(parser.Abs().why)
    ensures eof == Verdict(parser.Abs())
  {
    ok, err := parser.Feed([]);
    for i := 0 to |chunks|
      invariant parser.Valid() && parser.fed == Joined(chunks[..i])
      invariant ok <==> parser.Abs().Live?
      invariant err == if ok then None else Some(parser.Abs().why)
    {
      assert chunks[..i + 1][..i] == chunks[..i];
      ok, err := parser.Feed(chunks[i]);
    }
    assert chunks[..|chunks|] == chunks;
    eof := parser.Finish();
  }

  function RunChunks(lim: Limits, cb: Callback, chunks: seq<bytes>): (st: State)
    ensures Sound(lim, st)
  {
    if chunks == [] then START
    else Run(lim, cb, RunChunks(lim, cb, chunks[..|chunks| - 1]), chunks[|chunks| - 1])
  }

  /** However the stream is cut, empty chunks included, the outcome is the one-shot document reading. */
  lemma {:induction false} ChunkingIsInvisible(lim: Limits, cb: Callback, chunks: seq<bytes>)
    ensures RunChunks(lim, cb, chunks) == Decode(lim, cb, Joined(chunks))
  {
    if chunks == [] {
    } else {
      var n := |chunks| - 1;
      ChunkingIsInvisible(lim, cb, chunks[..n]);
      DecodeContinues(lim, cb, Joined(chunks[..n]), chunks[n]);
    }
  }

  // ----- delivered events are final -----

  lemma {:induction false} EventsGrow(lim: Limits, cb: Callback, st: State, s: bytes)
    requires Sound(lim, st)
    ensures StateEvents(st) <= StateEvents(Run(lim, cb, st, s))
    ensures st.Dead? ==> Run(lim, cb, st, s) == st
    decreases |s|
  {
    if s != [] {
      StepAsksOnce(lim, cb, st, s[0]);
      EventsGrow(lim, cb, Step(lim, cb, st, s[0]), s[1..]);
    }
  }

  /** Later input only appends events, and a dead parser stays dead for the same reason. */
  lemma DeliveredEventsAreFinal(lim: Limits, cb: Callback, s: bytes, t: bytes)
    ensures StateEvents(Decode(lim, cb, s)) <= StateEvents(Decode(lim, cb, s + t))
    ensures Decode(lim, cb, s).Dead? ==> Decode(lim, cb, s + t) == Decode(lim, cb, s)
  {
    DecodeContinues(lim, cb, s, t);
    EventsGrow(lim, cb, Decode(lim, cb, s), t);
  }

  /** The callback is never asked again after it has refused: every earlier answer was yes. */
  lemma {:induction false} RefusalIsLast(lim: Limits, cb: Callback, s: bytes)
    ensures var st := Decode(lim, cb, s);
            var events := StateEvents(st);
            && (forall n :: 0 < n < |events| ==> cb(events[..n]))
            && (events != [] ==> (cb(events) <==> !(st.Dead? && st.why == Refused)))
            && (events == [] ==> !(st.Dead? && st.why == Refused))
  {
    hide Step, Decode, Sound;
    if s == [] {
      NothingRead(lim, cb);
    } else {
      var init, b := s[..|s| - 1], s[|s| - 1];
      assert s == init + [b];
      RefusalIsLast(lim, cb, init);
      DecodeContinues(lim, cb, init, []);
      DecodeSnoc(lim, cb, init, b);
      var before, after := Decode(lim, cb, init), Decode(lim, cb, s);
      StepAsksOnce(lim, cb, before, b);
      var events := StateEvents(after);
      forall n | 0 < n < |events| ensures cb(events[..n]) {
        assert events[..n] == if n < |StateEvents(before)| then StateEvents(before)[..n] else StateEvents(before);
      }
    }
  }

  ghost predicate AskedOnce(cb: Callback, was: seq<Event>, now: seq<Event>, refused: bool) {
    |now| == |was| + 1 && was == now[..|was|] && (cb(now) <==> !refused)
  }

  lemma LineAsksOnce(lim: Limits, cb: Callback, it: Interp, line: bytes)
    requires it.Running?
    ensures var next := Line(lim, cb, it, line);
            var refused := next.Stopped? && next.why == Refused;
            if next.events == it.events then !refused else AskedOnce(cb, it.events, next.events, refused)
  {
  }

  lemma StepAsksOnce(lim: Limits, cb: Callback, st: State, b: byte)
    requires Sound(lim, st)
    ensures var next := Step(lim, cb, st, b);
            var refused := next.Dead? && next.why == Refused;
            if StateEvents(next) == StateEvents(st) then refused ==> st == next
            else st.Live? && AskedOnce(cb, StateEvents(st), StateEvents(next), refused)
    ensures st.Dead? ==> Step(lim, cb, st, b) == st
  {
    if st.Live? {
      LineAsksOnce(lim, cb, st.it, if st.inBom then BOM[..st.bom] else st.line);
    }
  }

  // ----- the verdict at end of stream -----

  /** The documented verdict: clean unless dead, mid-line (an unfinished mark included) or mid-event. */
  function DocumentedVerdict(lim: Limits, cb: Callback, s: bytes): Eof {
    var st := Decode(lim, cb, s);
    if st.Live? && st.it.Running? && st.line == [] && st.it.data == [] && !([] < s < BOM) then Clean else Truncated
  }

  /** The code keeps it exactly on streams without a byte-order mark; after a mark it always says truncated. */
  lemma VerdictExactly(lim: Limits, cb: Callback, s: bytes)
    ensures !(BOM <= s) ==> Verdict(Decode(lim, cb, s)) == DocumentedVerdict(lim, cb, s)
    ensures BOM <= s ==> Verdict(Decode(lim, cb, s)) == Truncated
  {
    if s < BOM {
      assert s == [] || |s| > 0;
    }
  }

  /** A mark, then one complete event: nothing is pending, yet the verdict is truncated. */
  lemma MarkedStreamIsCalledTruncated(lim: Limits, cb: Callback, value: bytes)
    requires OneLine(value) && |value| + 6 <= lim.maxLine && |value| + 1 <= lim.maxData
    requires cb([Event(DEFAULT_TYPE, value, [])])
    ensures var s := BOM + Terminated([FieldLine(FIELD_DATA, value), []], [LF]);
            && StateEvents(Decode(lim, cb, s)) == [Event(DEFAULT_TYPE, value, [])]
            && DocumentedVerdict(lim, cb, s) == Clean
            && Verdict(Decode(lim, cb, s)) == Truncated
  {
    var lines: seq<bytes> := [FieldLine(FIELD_DATA, value), []];
    var s := BOM + Terminated(lines, [LF]);
    assert s[..3] == BOM && s[3..] == Terminated(lines, [LF]);
    SplitTerminated(lines, [LF]);
    OneEventReads(lim, cb, value);
  }

  lemma OneEventReads(lim: Limits, cb: Callback, value: bytes)
    requires |value| + 6 <= lim.maxLine && |value| + 1 <= lim.maxData
    requires cb([Event(DEFAULT_TYPE, value, [])])
    ensures Interpret(lim, cb, FRESH, [FieldLine(FIELD_DATA, value), []]) ==
            Running([], [], [], [Event(DEFAULT_TYPE, value, [])])
  {
    var line := FieldLine(FIELD_DATA, value);
    FieldLineReads(lim, cb, FRESH, FIELD_DATA, value);
    InterpretSnoc(lim, cb, FRESH, [], line);
    InterpretSnoc(lim, cb, FRESH, [line], []);
    assert [] + [line] == [line] && [line] + [[]] == [line, []];
    assert ([] + value + [LF])[..|value|] == value;
    assert [] + [Event(DEFAULT_TYPE, value, [])] == [Event(DEFAULT_TYPE, value, [])];
  }

  lemma {:induction false} FindIn(before: bytes, after: bytes, b: byte)
    requires b !in before
    ensures Find(before + [b] + after, b) == |before|
  {
    if before == [] {
      assert before + [b] + after == [b] + after;
    } else {
      assert (before + [b] + after)[1..] == before[1..] + [b] + after;
      FindIn(before[1..], after, b);
    }
  }

  // ----- reading back what was written -----

  /** One event as a server writes it. */
  datatype Message = Message(kind: bytes, id: bytes, lines: seq<bytes>)

  predicate Newline(nl: bytes) { nl == [LF] || nl == [CR] || nl == [CR, LF] }

  predicate OneLine(s: bytes) { forall i :: 0 <= i < |s| ==> !IsTerminator(s[i]) }

  function FieldLine(name: bytes, value: bytes): bytes { name + [COLON, SPACE] + value }

  function DataLines(lines: seq<bytes>): seq<bytes> {
    if lines == [] then [] else DataLines(lines[..|lines| - 1]) + [FieldLine(FIELD_DATA, lines[|lines| - 1])]
  }

  function MessageLines(m: Message): seq<bytes> {
    [FieldLine(FIELD_EVENT, m.kind), FieldLine(FIELD_ID, m.id)] + DataLines(m.lines) + [[]]
  }

  function StreamLines(ms: seq<Message>): seq<bytes> {
    if ms == [] then [] else StreamLines(ms[..|ms| - 1]) + MessageLines(ms[|ms| - 1])
  }

  function Terminated(lines: seq<bytes>, nl: bytes): bytes {
    if lines == [] then [] else lines[0] + nl + Terminated(lines[1..], nl)
  }

  /** The data lines with a newline between neighbours. */
  function Join(lines: seq<bytes>): bytes {
    if lines == [] then []
    else if |lines| == 1 then lines[0]
    else Join(lines[..|lines| - 1]) + [LF] + lines[|lines| - 1]
  }

  function Received(m: Message): Event {
    Event(if m.kind == [] then DEFAULT_TYPE else m.kind, Join(m.lines), m.id)
  }

  function ReceivedAll(ms: seq<Message>): seq<Event> {
    seq(|ms|, i requires 0 <= i < |ms| => Received(ms[i]))
  }

  ghost predicate Sendable(lim: Limits, m: Message) {
    && m.lines != []
    && OneLine(m.kind) && OneLine(m.id) && NUL !in m.id
    && (forall i :: 0 <= i < |m.lines| ==> OneLine(m.lines[i]) && |m.lines[i]| + 6 <= lim.maxLine)
    && |m.kind| + 7 <= lim.maxLine && |m.kind| <= lim.maxType
    && |m.id| + 4 <= lim.maxLine && |m.id| <= lim.maxId
    && |Join(m.lines)| + 1 <= lim.maxData
  }

  lemma {:induction false} FindTerminatorAt(line: bytes, rest: bytes)
    requires OneLine(line) && rest != [] && IsTerminator(rest[0])
    ensures FindTerminator(line + rest) == |line|
  {
    if line == [] {
      assert line + rest == rest;
    } else {
      assert (line + rest)[1..] == line[1..] + rest;
      FindTerminatorAt(line[1..], rest);
    }
  }

  lemma {:induction false} SplitTerminated(lines: seq<bytes>, nl: bytes)
    requires Newline(nl)
    requires forall i :: 0 <= i < |lines| ==> OneLine(lines[i])
    ensures Split(Terminated(lines, nl)) == Lines(lines, [])
  {
    hide Split;
    if lines == [] {
      NothingToSplit();
    } else {
      SplitTerminated(lines[1..], nl);
      SplitOneMore(lines[0], nl, Terminated(lines[1..], nl));
      if nl == [CR] && lines[1..] != [] {
        assert Terminated(lines[1..], nl)[0] == if lines[1] == [] then CR else lines[1][0];
      }
      assert [lines[0]] + lines[1..] == lines;
    }
  }

  lemma NothingToSplit()
    ensures Split([]) == Lines([], [])
  {
  }

  lemma {:induction false} SplitOneMore(line: bytes, nl: bytes, rest: bytes)
    requires Newline(nl) && OneLine(line)
    requires nl == [CR] && rest != [] ==> rest[0] != LF
    ensures Split(line + nl + rest) == Prepend(line, Split(rest))
  {
    var s := line + nl + rest;
    assert s == line + (nl + rest);
    FindTerminatorAt(line, nl + rest);
    assert s[|line|] == nl[0] && s[..|line|] == line;
    if |line| + 1 < |s| {
      assert s[|line| + 1] == if |nl| == 2 then nl[1] else rest[0];
    }
    assert s[|line| + |nl|..] == rest;
  }

  lemma {:induction false} InterpretConcat(lim: Limits, cb: Callback, it: Interp, a: seq<bytes>, b: seq<bytes>)
    ensures Interpret(lim, cb, it, a + b) == Interpret(lim, cb, Interpret(lim, cb, it, a), b)
    decreases |b|
  {
    if b == [] {
      assert a + b == a;
    } else {
      var n := |b| - 1;
      assert a + b == (a + b[..n]) + [b[n]];
      InterpretSnoc(lim, cb, it, a + b[..n], b[n]);
      InterpretConcat(lim, cb, it, a, b[..n]);
    }
  }

  lemma FieldLineReads(lim: Limits, cb: Callback, it: Interp, name: bytes, value: bytes)
    requires it.Running? && COLON !in name && name != [] && |name| + 2 + |value| <= lim.maxLine
    ensures Line(lim, cb, it, FieldLine(name, value)) == Field(lim, it, name, value)
  {
    var line := FieldLine(name, value);
    assert line == name + [COLON] + ([SPACE] + value);
    FindIn(name, [SPACE] + value, COLON);
    assert line[..|name|] == name && line[|name| + 2..] == value;
    assert line[0] == name[0];
  }

  lemma {:induction false} DataLinesRead(lim: Limits, cb: Callback, it: Interp, lines: seq<bytes>)
    requires it.Running? && it.data == []
    requires forall i :: 0 <= i < |lines| ==> |lines[i]| + 6 <= lim.maxLine
    requires lines != [] ==> |Join(lines)| + 1 <= lim.maxData
    ensures Interpret(lim, cb, it, DataLines(lines)) == it.(data := if lines == [] then [] else Join(lines) + [LF])
  {
    hide Line, FieldLine, Interpret;
    if lines == [] {
      NoLines(lim, cb, it);
    } else {
      var n := |lines| - 1;
      DataLinesRead(lim, cb, it, lines[..n]);
      InterpretSnoc(lim, cb, it, DataLines(lines[..n]), FieldLine(FIELD_DATA, lines[n]));
      var before := if n == 0 then [] else Join(lines[..n]) + [LF];
      FieldLineReads(lim, cb, it.(data := before), FIELD_DATA, lines[n]);
      assert before + lines[n] + [LF] == Join(lines) + [LF];
    }
  }

  lemma NoLines(lim: Limits, cb: Callback, it: Interp)
    ensures Interpret(lim, cb, it, []) == it
  {
  }

  lemma MessageReads(lim: Limits, cb: Callback, id: bytes, events: seq<Event>, m: Message)
    requires Sendable(lim, m) && cb(events + [Received(m)])
    ensures Interpret(lim, cb, Running([], [], id, events), MessageLines(m)) ==
            Running([], [], m.id, events + [Received(m)])
  {
    var it := Running([], [], id, events);
    var l0, l1 := FieldLine(FIELD_EVENT, m.kind), FieldLine(FIELD_ID, m.id);
    FieldLineReads(lim, cb, it, FIELD_EVENT, m.kind);
    var it1 := it.(kind := m.kind);
    FieldLineReads(lim, cb, it1, FIELD_ID, m.id);
    var it2 := it1.(id := m.id);
    InterpretSnoc(lim, cb, it, [], l0);
    InterpretSnoc(lim, cb, it, [l0], l1);
    assert [] + [l0] == [l0] && [l0] + [l1] == [l0, l1];
    DataLinesRead(lim, cb, it2, m.lines);
    InterpretConcat(lim, cb, it, [l0, l1], DataLines(m.lines));
    InterpretSnoc(lim, cb, it, [l0, l1] + DataLines(m.lines), []);
    assert (Join(m.lines) + [LF])[..|Join(m.lines)|] == Join(m.lines);
  }

  function AfterStream(ms: seq<Message>): Interp {
    Running([], [], if ms == [] then [] else ms[|ms| - 1].id, ReceivedAll(ms))
  }

  lemma {:induction false} StreamReads(lim: Limits, cb: Callback, ms: seq<Message>)
    requires forall h :: cb(h)
    requires forall i :: 0 <= i < |ms| ==> Sendable(lim, ms[i])
    ensures Interpret(lim, cb, FRESH, StreamLines(ms)) == AfterStream(ms)
  {
    hide Line, MessageLines, Sendable, AfterStream, Interpret;
    if ms == [] {
      NoLines(lim, cb, FRESH);
      NothingStreamed();
    } else {
      var init, m := ms[..|ms| - 1], ms[|ms| - 1];
      StreamReads(lim, cb, init);
      InterpretConcat(lim, cb, FRESH, StreamLines(init), MessageLines(m));
      AfterStreamSnoc(lim, cb, init, m);
      assert ms == init + [m];
    }
  }

  lemma NothingStreamed()
    ensures AfterStream([]) == FRESH
  {
    assert ReceivedAll([]) == [];
  }

  lemma AfterStreamSnoc(lim: Limits, cb: Callback, ms: seq<Message>, m: Message)
    requires Sendable(lim, m) && (forall h :: cb(h))
    ensures Interpret(lim, cb, AfterStream(ms), MessageLines(m)) == AfterStream(ms + [m])
  {
    var events := ReceivedAll(ms) + [Received(m)];
    assert cb(events);
    assert ReceivedAll(ms + [m]) == events;
    MessageReads(lim, cb, AfterStream(ms).id, ReceivedAll(ms), m);
  }

  lemma {:induction false} DataLinesAreLines(lines: seq<bytes>)
    requires forall i :: 0 <= i < |lines| ==> OneLine(lines[i])
    ensures forall i :: 0 <= i < |DataLines(lines)| ==> OneLine(DataLines(lines)[i])
  {
    if lines != [] {
      DataLinesAreLines(lines[..|lines| - 1]);
    }
  }

  lemma {:induction false} StreamLinesAreLines(lim: Limits, ms: seq<Message>)
    requires forall i :: 0 <= i < |ms| ==> Sendable(lim, ms[i])
    ensures forall i :: 0 <= i < |StreamLines(ms)| ==> OneLine(StreamLines(ms)[i])
    ensures ms != [] ==> StreamLines(ms) != [] && FieldLine(FIELD_EVENT, ms[0].kind) == StreamLines(ms)[0]
  {
    if ms != [] {
      StreamLinesAreLines(lim, ms[..|ms| - 1]);
      DataLinesAreLines(ms[|ms| - 1].lines);
    }
  }

  /** Written with any one line terminator and cut anywhere, the events come back, and the stream is clean. */
  lemma WrittenStreamReadsBack(lim: Limits, cb: Callback, ms: seq<Message>, nl: bytes, chunks: seq<bytes>)
    requires Newline(nl) && (forall h :: cb(h))
    requires forall i :: 0 <= i < |ms| ==> Sendable(lim, ms[i])
    requires Joined(chunks) == Terminated(StreamLines(ms), nl)
    ensures var st := RunChunks(lim, cb, chunks);
            st.Live? && StateEvents(st) == ReceivedAll(ms) && Verdict(st) == Clean
  {
    hide RunChunks, Interpret, StreamLines, MessageLines, FieldLine, Split, ReceivedAll, Sendable, OneLine, Line,
        Terminated;
    var text := Terminated(StreamLines(ms), nl);
    ChunkingIsInvisible(lim, cb, chunks);
    StreamLinesAreLines(lim, ms);
    SplitTerminated(StreamLines(ms), nl);
    StreamReads(lim, cb, ms);
    StreamHasNoMark(lim, ms, nl);
    NothingStreamed();
  }

  lemma StreamHasNoMark(lim: Limits, ms: seq<Message>, nl: bytes)
    requires forall i :: 0 <= i < |ms| ==> Sendable(lim, ms[i])
    ensures var text := Terminated(StreamLines(ms), nl);
      !(BOM <= text) && (ms == [] ==> text == []) && (ms != [] ==> !(text < BOM))
  {
    hide DataLines, Sendable, OneLine;
    StreamLinesAreLines(lim, ms);
    if ms != [] { assert Terminated(StreamLines(ms), nl)[0] == FIELD_EVENT[0]; }
  }
}
