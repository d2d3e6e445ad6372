/**
 What the event-stream decoder of src/mua/sse.c computes, twice over.

 `Decode` is the document: strip one byte-order mark, split into lines, interpret the lines
 (HTML Standard sections 9.2.5 and 9.2.6, with the decoder's caps).  `Step` is a byte-at-a-time
 machine.  SseMachine.DecodeIsRun shows they agree on every stream.
 */
module SseSpec {
  import opened Bytes

  const BOM: bytes := [0xef, 0xbb, 0xbf]
  const COLON: byte := 58

  const FIELD_DATA: bytes := [100, 97, 116, 97]            // "data"
  const FIELD_EVENT: bytes := [101, 118, 101, 110, 116]    // "event"
  const FIELD_ID: bytes := [105, 100]                      // "id"
  const DEFAULT_TYPE: bytes := [109, 101, 115, 115, 97, 103, 101] // "message"

  datatype Limits = Limits(maxLine: nat, maxData: nat, maxType: nat, maxId: nat)

  datatype Event = Event(kind: bytes, data: bytes, id: bytes)

  /** Why a parser is dead: a cap was passed, or the event callback refused to go on. */
  datatype Failure = LineTooLong | DataTooLong | TypeTooLong | IdTooLong | Refused

  /** The callback's answer depends on every event it has seen, the newest last. */
  type Callback = seq<Event> -> bool

  /** The event under construction, and the events delivered so far. */
  datatype Interp =
    | Running(data: bytes, kind: bytes, id: bytes, events: seq<Event>)
    | Stopped(why: Failure, events: seq<Event>)

  const FRESH := Running([], [], [], [])

  // ----- one line -----

  function Dispatch(cb: Callback, it: Interp): Interp
    requires it.Running?
  {
    if it.data == [] then it.(kind := [])
    else
      var event := Event(if it.kind == [] then DEFAULT_TYPE else it.kind, it.data[..|it.data| - 1], it.id);
      var events := it.events + [event];
      if cb(events) then Running([], [], it.id, events) else Stopped(Refused, events)
  }

  function Field(lim: Limits, it: Interp, name: bytes, value: bytes): Interp
    requires it.Running?
  {
    if name == FIELD_DATA then
      if |it.data| + |value| + 1 <= lim.maxData then it.(data := it.data + value + [LF])
      else Stopped(DataTooLong, it.events)
    else if name == FIELD_EVENT then
      if |value| <= lim.maxType then it.(kind := value) else Stopped(TypeTooLong, it.events)
    else if name == FIELD_ID && NUL !in value then
      if |value| <= lim.maxId then it.(id := value) else Stopped(IdTooLong, it.events)
    else it
  }

  /** A field line is split at its first colon; one space after the colon belongs to neither side. */
  function FieldName(line: bytes): bytes {
    line[..Find(line, COLON)]
  }

  function FieldValue(line: bytes): bytes {
    var c := Find(line, COLON);
    if c == |line| then []
    else if c + 1 < |line| && line[c + 1] == SPACE then line[c + 2..]
    else line[c + 1..]
  }

  function Line(lim: Limits, cb: Callback, it: Interp, line: bytes): Interp {
    if it.Stopped? then it
    else if |line| > lim.maxLine then Stopped(LineTooLong, it.events)
    else if line == [] then Dispatch(cb, it)
    else if line[0] == COLON then it
    else Field(lim, it, FieldName(line), FieldValue(line))
  }

  // ----- the document -----

  predicate IsTerminator(b: byte) { b == CR || b == LF }

  /** Complete lines and the unterminated rest; CRLF, CR and LF each end a line. */
  datatype Lines = Lines(complete: seq<bytes>, rest: bytes)

  function Split(s: bytes): Lines {
    var i := FindTerminator(s);
    if i == |s| then Lines([], s)
    else
      var next := if s[i] == CR && i + 1 < |s| && s[i + 1] == LF then i + 2 else i + 1;
      Prepend(s[..i], Split(s[next..]))
  }

  function Prepend(first: bytes, more: Lines): Lines {
    Lines([first] + more.complete, more.rest)
  }

  /** The first line terminator, or |s|. */
  function FindTerminator(s: bytes): (i: nat)
    ensures i <= |s|
    ensures i < |s| ==> IsTerminator(s[i])
    ensures forall j :: 0 <= j < i ==> !IsTerminator(s[j])
  {
    if s == [] then 0 else if IsTerminator(s[0]) then 0 else 1 + FindTerminator(s[1..])
  }

  function Interpret(lim: Limits, cb: Callback, it: Interp, lines: seq<bytes>): Interp {
    if lines == [] then it
    else Line(lim, cb, Interpret(lim, cb, it, lines[..|lines| - 1]), lines[|lines| - 1])
  }

  /** The parser's state, as far as any later input or answer can depend on it. */
  datatype State =
    | Live(bom: nat, inBom: bool, skipLf: bool, line: bytes, it: Interp)
    | Dead(why: Failure, events: seq<Event>)

  const START := Live(0, true, false, [], FRESH)

  function Settle(bom: nat, skipLf: bool, line: bytes, it: Interp): State {
    if it.Stopped? then Dead(it.why, it.events) else Live(bom, false, skipLf, line, it)
  }

  predicate EndsInCr(s: bytes) { s != [] && s[|s| - 1] == CR }

  function Body(s: bytes): bytes { if BOM <= s then s[3..] else s }

  function DecodeBody(lim: Limits, cb: Callback, body: bytes, bom: nat): State {
    var lines := Split(body);
    var it := Interpret(lim, cb, FRESH, lines.complete);
    if it.Running? && |lines.rest| > lim.maxLine then Dead(LineTooLong, it.events)
    else Settle(bom, EndsInCr(body), lines.rest, it)
  }

  function Decode(lim: Limits, cb: Callback, s: bytes): State {
    if s < BOM then Live(|s|, true, false, [], FRESH)
    else
      DecodeBody(lim, cb, Body(s), if BOM <= s then 3 else 0)
  }

  // ----- the byte machine -----

  function Step(lim: Limits, cb: Callback, st: State, b: byte): State
    requires st.Live? && st.inBom ==> st.bom < 3
  {
    if st.Dead? then st
    else if st.inBom then
      if b == BOM[st.bom] then st.(bom := st.bom + 1, inBom := st.bom + 1 < 3)
      else if st.bom > lim.maxLine then Dead(LineTooLong, StateEvents(st))
      else LineStep(lim, cb, st.(bom := 0, inBom := false, line := BOM[..st.bom]), b)
    else LineStep(lim, cb, st, b)
  }

  function StateEvents(st: State): seq<Event> {
    if st.Dead? then st.events else st.it.events
  }

  function LineStep(lim: Limits, cb: Callback, st: State, b: byte): State
    requires st.Live?
  {
    if st.skipLf && b == LF then st.(skipLf := false)
    else if IsTerminator(b) then Settle(st.bom, b == CR, [], Line(lim, cb, st.it, st.line))
    else if |st.line| + 1 > lim.maxLine then Dead(LineTooLong, st.it.events)
    else st.(skipLf := false, line := st.line + [b])
  }

  ghost predicate Sound(lim: Limits, st: State) {
    st.Live? ==>
      && st.it.Running?
      && |st.line| <= lim.maxLine
      && (if st.inBom then st.bom < 3 && st.line == [] && !st.skipLf else st.bom == 0 || st.bom == 3)
      && (st.skipLf ==> st.line == [])
  }

  function Run(lim: Limits, cb: Callback, st: State, s: bytes): (r: State)
    requires Sound(lim, st)
    ensures Sound(lim, r)
    decreases |s|
  {
    if s == [] then st else Run(lim, cb, Step(lim, cb, st, s[0]), s[1..])
  }
}
