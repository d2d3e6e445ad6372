/**
 The OpenRouter stream of src/mua/provider/openrouter.c: how events add up to a message, and when the stream
 retries, reports and goes away.
 */
module ProviderSpec {
  import opened Bytes
  import opened CJsonSpec
  import opened SessionSpec
  import opened AgentSpec

  const MAX_TOOL_CALLS := 16
  const MAX_ATTEMPTS := 5
  const EVENT_CAP := 1048576
  const CONTENT_CAP := 1048576
  const ARGS_CAP := 262144
  const ID_CAP := 64
  const NAME_CAP := 128
  const REASON_CAP := 32
  const ITEMS_PER_EVENT := 64

  const TEXT_DONE: bytes := [91, 68, 79, 78, 69, 93]
  const TEXT_FUNCTION: bytes := [102, 117, 110, 99, 116, 105, 111, 110]
  const KEY_ERROR: bytes := [101, 114, 114, 111, 114]
  const KEY_CHOICES: bytes := [99, 104, 111, 105, 99, 101, 115]
  const KEY_DELTA: bytes := [100, 101, 108, 116, 97]
  const KEY_REASON: bytes := [102, 105, 110, 105, 115, 104, 95, 114, 101, 97, 115, 111, 110]
  const KEY_INDEX: bytes := [105, 110, 100, 101, 120]
  const KEY_NAME: bytes := [110, 97, 109, 101]
  const KEY_ARGUMENTS: bytes := [97, 114, 103, 117, 109, 101, 110, 116, 115]
  const KEY_ID: bytes := [105, 100]
  const KEY_KIND: bytes := [116, 121, 112, 101]

  // ----- looking into an event -----

  /** json_get_obj, json_get_arr. */
  function Child(v: Json, key: bytes): Option<Json> {
    if v.Object? then Lookup(v.members, key) else None
  }

  function ChildObject(v: Json, key: bytes): Option<Json> {
    match Child(v, key)
    case Some(Object(ms)) => Some(Object(ms))
    case _ => None
  }

  function ChildItems(v: Json, key: bytes): Option<seq<Json>> {
    match Child(v, key)
    case Some(Array(items)) => Some(items)
    case _ => None
  }

  /** A string member, empty when there is none. */
  function Text(v: Json, key: bytes): bytes {
    if GetString(v, key).Some? then GetString(v, key).value else []
  }

  /** The double behind a number's text, cut to an integer; what strtod and the cast make of it. */
  type Truncate = bytes -> int

  /** json_get_int. */
  function GetInt(v: Json, key: bytes, cut: Truncate): Option<int> {
    match Child(v, key)
    case Some(Integer(i)) => Some(i)
    case Some(Real(text)) => Some(cut(text))
    case _ => None
  }

  // ----- tool calls, fragment by fragment -----

  datatype Slot = Slot(present: bool, id: bytes, name: bytes, args: bytes)

  const EMPTY_SLOT := Slot(false, [], [], [])

  /** One item of delta.tool_calls; what it does not carry is empty. */
  datatype Fragment = Fragment(index: nat, id: bytes, name: bytes, args: bytes)

  function FragmentOf(item: Json, cut: Truncate): (f: Option<Fragment>)
    ensures f.Some? ==> f.value.index < MAX_TOOL_CALLS
  {
    match GetInt(item, KEY_INDEX, cut)
    case None => None
    case Some(i) =>
      if i < 0 || i >= MAX_TOOL_CALLS then None
      else
        match ChildObject(item, TEXT_FUNCTION)
        case None => Some(Fragment(i, Text(item, KEY_ID), [], []))
        case Some(f) => Some(Fragment(i, Text(item, KEY_ID), Text(f, KEY_NAME), Text(f, KEY_ARGUMENTS)))
  }

  /** What a fragment does to its slot: id and name are latched from the first that carries them. */
  function Apply(slot: Slot, f: Fragment): Option<Slot> {
    var takesId := f.id != [] && slot.id == [];
    var takesName := f.name != [] && slot.name == [];
    if (takesId && |f.id| >= ID_CAP) || (takesName && |f.name| >= NAME_CAP)
        || |slot.args| + |f.args| > ARGS_CAP then None
    else Some(Slot(true, if takesId then f.id else slot.id, if takesName then f.name else slot.name,
        slot.args + f.args))
  }

  /** accumulate_tool_calls over fragments that are well formed. */
  function Accumulate(slots: seq<Slot>, fs: seq<Fragment>): Option<seq<Slot>>
    requires |slots| == MAX_TOOL_CALLS && forall f :: f in fs ==> f.index < MAX_TOOL_CALLS
  {
    if fs == [] then Some(slots)
    else
      match Accumulate(slots, fs[..|fs| - 1])
      case None => None
      case Some(before) =>
        var f := fs[|fs| - 1];
        if |before| != MAX_TOOL_CALLS then None
        else match Apply(before[f.index], f)
          case None => None
          case Some(slot) => Some(before[f.index := slot])
  }

  // ----- the accumulators of one attempt -----

  datatype Usage = Usage(prompt: int, completion: int, total: int)

  datatype Acc = Acc(content: bytes, slots: seq<Slot>, hwm: nat, reason: bytes, usage: Usage)

  function EmptySlots(n: nat): (slots: seq<Slot>)
    ensures |slots| == n && forall i :: 0 <= i < n ==> slots[i] == EMPTY_SLOT
  {
    if n == 0 then [] else EmptySlots(n - 1) + [EMPTY_SLOT]
  }

  /** The accumulators as an attempt finds them. */
  function EmptyAcc(): (acc: Acc)
    ensures |acc.slots| == MAX_TOOL_CALLS && forall i :: 0 <= i < MAX_TOOL_CALLS ==> acc.slots[i] == EMPTY_SLOT
    ensures acc == Acc([], acc.slots, 0, [], Usage(0, 0, 0))
  {
    hide EmptySlots;
    Acc([], EmptySlots(MAX_TOOL_CALLS), 0, [], Usage(0, 0, 0))
  }

  function Max(a: nat, b: nat): nat { if a < b then b else a }

  /** accumulate_tool_calls: the items of one event, of which the 65th, or the first bad one, is an error. */
  function TakeItems(acc: Acc, items: seq<Json>, n: nat, cut: Truncate): (r: (Acc, bool))
    requires |acc.slots| == MAX_TOOL_CALLS && n <= ITEMS_PER_EVENT
    ensures |r.0.slots| == MAX_TOOL_CALLS
    decreases |items|
  {
    if items == [] then (acc, true)
    else if n == ITEMS_PER_EVENT then (acc, false)
    else
      match FragmentOf(items[0], cut)
      case None => (acc, false)
      case Some(f) =>
        match Apply(acc.slots[f.index], f)
        case None => (acc, false)
        case Some(slot) =>
          TakeItems(acc.(slots := acc.slots[f.index := slot], hwm := Max(acc.hwm, f.index + 1)), items[1..], n + 1, cut)
  }

  function CallEntry(slot: Slot): Json {
    Object([Member(KEY_ID, String(slot.id)), Member(KEY_KIND, String(TEXT_FUNCTION)),
            Member(TEXT_FUNCTION, Object([Member(KEY_NAME, String(slot.name)),
                Member(KEY_ARGUMENTS, String(slot.args))]))])
  }

  /** The calls of the slots from `i` to the highest one touched; gaps are skipped. */
  function Entries(slots: seq<Slot>, i: nat, hwm: nat): seq<Json>
    decreases hwm - i
  {
    if i >= hwm || i >= |slots| then []
    else (if slots[i].present then [CallEntry(slots[i])] else []) + Entries(slots, i + 1, hwm)
  }

  /** assemble_message. */
  function Assemble(acc: Acc): Json {
    var head := [Member(KEY_ROLE, String(ROLE_ASSISTANT)),
                 Member(KEY_CONTENT, if acc.content == [] then Null else String(acc.content))];
    var calls := Entries(acc.slots, 0, acc.hwm);
    Object(if calls == [] then head else head + [Member(KEY_CALLS, Array(calls))])
  }

  /** fire_done's check: a call that some fragment named must have an id and a name. */
  predicate CallsComplete(acc: Acc) {
    forall i :: 0 <= i < acc.hwm && i < |acc.slots| && acc.slots[i].present ==>
      acc.slots[i].id != [] && acc.slots[i].name != []
  }

  // ----- the stream -----

  datatype Mode = Undecided | Sse | ErrorBody

  /** What the outside has seen: text, results, errors, the release of the stream, and the delays before retries. */
  datatype Trace = Trace(text: bytes, dones: seq<Json>, errors: nat, destroys: nat, delays: seq<nat>)

  datatype Stream = Stream(
    attempt: nat, mode: Mode, wrongType: bool, status: int, acc: Acc,
    delivered: bool, finished: bool, canceled: bool, request: bool, timer: bool, trace: Trace)

  /** What reading events never touches. */
  predicate SameLife(s: Stream, t: Stream) {
    && t.attempt == s.attempt && t.mode == s.mode && t.canceled == s.canceled
    && t.request == s.request && t.timer == s.timer
    && t.trace.destroys == s.trace.destroys && t.trace.delays == s.trace.delays
    && |t.acc.slots| == |s.acc.slots|
  }

  /** fire_error_msg, and the inlined copies of it. */
  function FireError(s: Stream): (t: Stream)
    ensures SameLife(s, t)
  {
    if s.finished then s else s.(finished := true, trace := s.trace.(errors := s.trace.errors + 1))
  }

  /** fire_done. */
  function FireDone(s: Stream): (t: Stream)
    ensures SameLife(s, t)
  {
    hide Assemble, CallsComplete;
    if s.finished then s
    else if !CallsComplete(s.acc) then FireError(s)
    else s.(finished := true, trace := s.trace.(dones := s.trace.dones + [Assemble(s.acc)]))
  }

  /** stream_destroy. */
  function Destroy(s: Stream): Stream {
    s.(request := false, timer := false, trace := s.trace.(destroys := s.trace.destroys + 1))
  }

  function TakeUsage(u: Usage, doc: Json, cut: Truncate): Usage {
    match ChildObject(doc, [117, 115, 97, 103, 101])
    case None => u
    case Some(o) =>
      var p, c, t := GetInt(o, [112, 114, 111, 109, 112, 116, 95, 116, 111, 107, 101, 110, 115], cut),
                     GetInt(o, [99, 111, 109, 112, 108, 101, 116, 105, 111, 110, 95, 116, 111, 107, 101, 110, 115],
                         cut),
                     GetInt(o, [116, 111, 116, 97, 108, 95, 116, 111, 107, 101, 110, 115], cut);
      Usage(if p.Some? then p.value else u.prompt, if c.Some? then c.value else u.completion,
            if t.Some? then t.value else u.total)
  }

  /** The text part of a delta: kept and passed on, or an error when the content cap would be passed. */
  function TakeText(s: Stream, text: bytes): (r: (Stream, bool))
    ensures SameLife(s, r.0)
  {
    if text == [] then (s, true)
    else if |s.acc.content| + |text| > CONTENT_CAP then (FireError(s), false)
    else (s.(delivered := true, acc := s.acc.(content := s.acc.content + text),
             trace := s.trace.(text := s.trace.text + text)), true)
  }

  /** The tool-call part of a delta. */
  function TakeCalls(s: Stream, items: seq<Json>, cut: Truncate): (r: (Stream, bool))
    requires |s.acc.slots| == MAX_TOOL_CALLS
    ensures SameLife(s, r.0)
  {
    hide TakeItems, Heard;
    var (acc, ok) := TakeItems(s.acc, items, 0, cut);
    var heard := s.(acc := acc, delivered := s.delivered || Heard(items, cut));
    if ok then (heard, true) else (FireError(heard), false)
  }

  /** Whether accumulate_tool_calls gets past the index of the first item. */
  predicate Heard(items: seq<Json>, cut: Truncate) {
    items != [] && FragmentOf(items[0], cut).Some?
  }

  function TakeReason(s: Stream, choice: Json): (t: Stream)
    ensures SameLife(s, t)
  {
    hide GetString;
    match GetString(choice, KEY_REASON)
    case None => s
    case Some(r) => s.(acc := s.acc.(reason := if |r| < REASON_CAP then r else r[..REASON_CAP - 1]))
  }

  /** The first choice of an event. */
  function TakeChoice(s: Stream, choice: Json, cut: Truncate): (r: (Stream, bool))
    requires |s.acc.slots| == MAX_TOOL_CALLS
    ensures SameLife(s, r.0)
  {
    hide TakeText, TakeCalls, TakeReason, Text, ChildObject, ChildItems;
    match ChildObject(choice, KEY_DELTA)
    case None => (TakeReason(s, choice), true)
    case Some(delta) =>
      var (t, ok) := TakeText(s, Text(delta, KEY_CONTENT));
      if !ok then (t, false)
      else match ChildItems(delta, KEY_CALLS)
        case None => (TakeReason(t, choice), true)
        case Some(items) =>
          var (c, taken) := TakeCalls(t, items, cut);
          if taken then (TakeReason(c, choice), true) else (c, false)
  }

  /** openrouter_handle_event; the flag says whether to go on reading. */
  function HandleEvent(s: Stream, data: bytes, cut: Truncate): (r: (Stream, bool))
    requires |s.acc.slots| == MAX_TOOL_CALLS
    ensures SameLife(s, r.0)
  {
    hide TakeChoice, FireDone, FireError, ParseDocument, ChildObject, ChildItems, TakeUsage;
    if s.finished then (s, false)
    else if data == TEXT_DONE then (FireDone(s), false)
    else
      match ParseDocument(data, EVENT_CAP)
      case None => (FireError(s), false)
      case Some(doc) =>
        if ChildObject(doc, KEY_ERROR).Some? then (FireError(s), false)
        else
          var choices := ChildItems(doc, KEY_CHOICES);
          var (t, ok) := if choices.Some? && choices.value != [] then TakeChoice(s, choices.value[0], cut)
              else (s, true);
          if !ok then (t, false)
          else (t.(acc := t.acc.(usage := TakeUsage(t.acc.usage, doc, cut))), true)
  }

  // ----- the life of a stream -----

  function TakeEvents(s: Stream, datas: seq<bytes>, cut: Truncate): (r: (Stream, bool))
    requires |s.acc.slots| == MAX_TOOL_CALLS
    ensures SameLife(s, r.0)
    decreases |datas|
  {
    hide HandleEvent;
    if datas == [] then (s, true)
    else
      var (t, ok) := HandleEvent(s, datas[0], cut);
      if ok then TakeEvents(t, datas[1..], cut) else (t, false)
  }

  /** or_on_chunk: the events the parser finds in a chunk, and whether it then fails on a cap. */
  function OnChunk(s: Stream, datas: seq<bytes>, overflow: bool, cut: Truncate): Stream
    requires |s.acc.slots| == MAX_TOOL_CALLS
  {
    if s.mode != Sse then s
    else
      var (t, ok) := TakeEvents(s, datas, cut);
      if ok && !overflow then t else FireError(t)
  }

  /** or_on_status. */
  function OnStatus(s: Stream, status: int, eventStream: bool): Stream {
    if status == 200 && eventStream then s.(status := status, mode := Sse)
    else s.(status := status, mode := ErrorBody, wrongType := s.wrongType || status == 200)
  }

  predicate StatusIsRetryable(status: int) { status in {408, 429, 500, 502, 503, 504} }

  function Min(a: nat, b: nat): nat { if a < b then a else b }

  function Doubled(base: nat, times: nat): nat {
    if times == 0 then base else 2 * Doubled(base, times - 1)
  }

  /** schedule_retry's backoff: doubled per attempt up to half a minute, full jitter, Retry-After up to a minute. */
  function Delay(attempt: nat, retryAfter: int, random: nat): nat {
    var base := Min(Doubled(500, Min(attempt, 6)), 30000);
    var jittered := base / 2 + random % (base / 2 + 1);
    if retryAfter < 0 then jittered else Max(Min(retryAfter, 60) * 1000, jittered)
  }

  /** start_attempt: everything but `delivered` starts afresh. */
  function StartAttempt(s: Stream, issued: bool): Stream {
    var t := s.(attempt := s.attempt + 1, mode := Undecided, wrongType := false, status := 0, acc := EmptyAcc());
    if issued then t.(request := true) else Destroy(FireError(t))
  }

  /** How a transfer ended: libcurl's verdict, the status line, the parser's verdict, and what a retry would meet. */
  datatype Completion = Completion(
    ok: bool, retryableCode: bool, status: int, cleanEof: bool, retryAfter: int, random: nat, timerStarts: bool)

  predicate Retryable(s: Stream, c: Completion) {
    || (s.mode != Sse && StatusIsRetryable(if c.status != 0 then c.status else s.status))
    || (!c.ok && c.retryableCode)
  }

  /** or_on_complete. */
  function OnComplete(s: Stream, c: Completion): Stream {
    var t := s.(request := false);
    if t.finished then Destroy(t)
    else if t.canceled then Destroy(FireError(t))
    else if t.mode == Sse && c.ok then
      Destroy(if t.acc.reason != [] && c.cleanEof then FireDone(t) else FireError(t))
    else if Retryable(t, c) && !t.delivered && t.attempt < MAX_ATTEMPTS then
      if c.timerStarts
      then t.(timer := true, trace := t.trace.(delays := t.trace.delays + [Delay(t.attempt, c.retryAfter, c.random)]))
      else Destroy(FireError(t))
    else Destroy(FireError(t))
  }

  /** openrouter_cancel. */
  function CancelStream(s: Stream): Stream {
    if s.finished || s.canceled then s
    else
      var t := s.(canceled := true);
      if t.request then t else Destroy(FireError(t))
  }

  datatype StreamEvent =
    | StatusLine(status: int, eventStream: bool)
    | ChunkRead(datas: seq<bytes>, overflow: bool)
    | TransferEnds(c: Completion)
    | RetryDue(issued: bool)
    | CancelCalled

  /** What can happen to a stream: its transfer goes on or ends, its retry falls due, its owner cancels it. */
  predicate CanHappen(s: Stream, e: StreamEvent) {
    match e
    case StatusLine(_, _) => s.request
    case ChunkRead(_, _) => s.request
    case TransferEnds(_) => s.request
    case RetryDue(_) => s.timer
    case CancelCalled => s.trace.destroys == 0
  }

  function NextStream(s: Stream, e: StreamEvent, cut: Truncate): Stream
    requires |s.acc.slots| == MAX_TOOL_CALLS
  {
    match e
    case StatusLine(status, eventStream) => OnStatus(s, status, eventStream)
    case ChunkRead(datas, overflow) => OnChunk(s, datas, overflow, cut)
    case TransferEnds(c) => OnComplete(s, c)
    case RetryDue(issued) => StartAttempt(s.(timer := false), issued)
    case CancelCalled => CancelStream(s)
  }

  /** openrouter_stream, before the first attempt. */
  function NewStream(): Stream {
    Stream(0, Undecided, false, 0, EmptyAcc(), false, false, false, false, false, Trace([], [], 0, 0, []))
  }
}
