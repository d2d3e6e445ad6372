/** The message channel of src/mua/rpc.c: what a server does with a byte stream. */
module RpcSpec {
  import opened Bytes
  import opened MsgpackSpec
  import Laws = MsgpackLaws

  const MAX_MESSAGE: nat := 16777216

  /** kRpcReadChunk: the most one read delivers. */
  const READ_CHUNK: nat := 65536

  /** kErrorTypeValidation. */
  const VALIDATION := 1

  datatype Invocation = Invocation(name: bytes, args: seq<Obj>)

  datatype ApiError = ApiError(kind: int, msg: bytes)

  datatype Outcome = Outcome(result: Obj, error: Option<ApiError>)

  /** The dispatch table: which methods exist, and what a call yields after the calls before it. */
  datatype Api = Api(known: bytes -> bool, run: (seq<Invocation>, Invocation) -> Outcome)

  datatype Response = Response(msgid: int, error: Obj, result: Obj)

  /** Every frame taken off the stream, every call made, every response sent. */
  datatype Server = Server(frames: seq<Obj>, calls: seq<Invocation>, sent: seq<Response>, stopping: bool)

  const IDLE := Server([], [], [], false)

  datatype FrameKind =
    | Request(msgid: int, name: bytes, params: Obj)
    | Notification(name: bytes, params: Obj)
    | Violation

  /** [0, msgid, method, params] is a request and [2, method, params] a notification; all else closes the channel. */
  function Classify(frame: Obj): FrameKind {
    if !frame.Arr? then Violation
    else
      var a := frame.items;
      if |a| == 4 && a[0] == Int(0) && a[1].Int? && a[2].Str? then Request(a[1].i, a[2].s, a[3])
      else if |a| == 3 && a[0] == Int(2) && a[1].Str? then Notification(a[1].s, a[2])
      else Violation
  }

  const UNKNOWN_METHOD: bytes := Ascii("unknown method: ")
  const PARAMS_NOT_ARRAY: bytes := Ascii("params must be an array")

  function CString(s: bytes): bytes { s[..Find(s, NUL)] }

  function Dispatch(api: Api, calls: seq<Invocation>, name: bytes, params: Obj): Outcome {
    if !api.known(name) then Outcome(Nil, Some(ApiError(VALIDATION, UNKNOWN_METHOD + CString(name))))
    else if !params.Arr? then Outcome(Nil, Some(ApiError(VALIDATION, PARAMS_NOT_ARRAY)))
    else api.run(calls, Invocation(name, params.items))
  }

  function Calls(api: Api, calls: seq<Invocation>, name: bytes, params: Obj): seq<Invocation> {
    if api.known(name) && params.Arr? then calls + [Invocation(name, params.items)] else calls
  }

  function ErrorObj(error: Option<ApiError>): Obj {
    if error.Some? then Arr([Int(error.value.kind), Str(error.value.msg)]) else Nil
  }

  function Handle(api: Api, sv: Server, frame: Obj): Server {
    var seen := sv.(frames := sv.frames + [frame]);
    match Classify(frame)
    case Violation => seen.(stopping := true)
    case Notification(name, params) => seen.(calls := Calls(api, sv.calls, name, params))
    case Request(msgid, name, params) =>
      var outcome := Dispatch(api, sv.calls, name, params);
      seen.(calls := Calls(api, sv.calls, name, params),
            sent := sv.sent + [Response(msgid, ErrorObj(outcome.error), outcome.result)])
  }

  /** Takes every complete frame off the front of `buf`; what is left waits for more bytes. */
  function Drain(api: Api, sv: Server, buf: bytes): (r: (Server, bytes))
    ensures !r.0.stopping ==> |r.1| <= MAX_MESSAGE
    ensures |r.1| <= |buf|
    decreases |buf|
  {
    if sv.stopping || buf == [] then (sv, buf)
    else match Decode(buf)
      case Incomplete => (if |buf| > MAX_MESSAGE then sv.(stopping := true) else sv, buf)
      case Malformed(_) => (sv.(stopping := true), buf)
      case Ok(frame, n) => Drain(api, Handle(api, sv, frame), buf[n..])
  }

  /** The channel fed chunk by chunk, draining after each. */
  function Serve(api: Api, chunks: seq<bytes>): (Server, bytes) {
    if chunks == [] then (IDLE, [])
    else
      var (sv, buf) := Serve(api, chunks[..|chunks| - 1]);
      Drain(api, sv, buf + chunks[|chunks| - 1])
  }

  /** Between reads a live channel holds at most one maximal message; during one, at most one read more. */
  lemma BufferBound(api: Api, chunks: seq<bytes>, read: bytes)
    requires !Serve(api, chunks).0.stopping && |read| <= READ_CHUNK
    ensures |Serve(api, chunks).1 + read| <= MAX_MESSAGE + READ_CHUNK
  {
  }

  // ----- responses -----

  function RequestIds(frames: seq<Obj>): seq<int> {
    if frames == [] then []
    else
      var init := RequestIds(frames[..|frames| - 1]);
      match Classify(frames[|frames| - 1])
      case Request(msgid, _, _) => init + [msgid]
      case _ => init
  }

  function ResponseIds(sent: seq<Response>): seq<int> {
    seq(|sent|, i requires 0 <= i < |sent| => sent[i].msgid)
  }

  ghost predicate Answered(sv: Server) {
    ResponseIds(sv.sent) == RequestIds(sv.frames)
  }

  lemma HandleAnswers(api: Api, sv: Server, frame: Obj)
    requires Answered(sv)
    ensures Answered(Handle(api, sv, frame))
  {
    var after := Handle(api, sv, frame);
    assert after.frames[..|sv.frames|] == sv.frames;
    if Classify(frame).Request? {
      assert ResponseIds(after.sent) == ResponseIds(sv.sent) + [Classify(frame).msgid];
    }
  }

  lemma {:induction false} DrainAnswers(api: Api, sv: Server, buf: bytes)
    requires Answered(sv)
    ensures Answered(Drain(api, sv, buf).0)
    decreases |buf|
  {
    if !sv.stopping && buf != [] && Decode(buf).Ok? {
      var frame, n := Decode(buf).value, Decode(buf).next;
      HandleAnswers(api, sv, frame);
      DrainAnswers(api, Handle(api, sv, frame), buf[n..]);
    }
  }

  /** Over any run, exactly one response per well-formed request, with its id, in request order. */
  lemma {:induction false} EveryRequestIsAnsweredOnce(api: Api, chunks: seq<bytes>)
    ensures Answered(Serve(api, chunks).0)
  {
    if chunks != [] {
      var n := |chunks| - 1;
      EveryRequestIsAnsweredOnce(api, chunks[..n]);
      var (sv, buf) := Serve(api, chunks[..n]);
      DrainAnswers(api, sv, buf + chunks[n]);
    }
  }

  function ResponseObj(r: Response): Obj {
    Arr([Int(1), Int(r.msgid), r.error, r.result])
  }

  predicate EncodableResponse(r: Response) {
    && INT64_MIN <= r.msgid <= INT64_MAX
    && Encodable(r.error) && Nesting(r.error) <= DEPTH_CAP
    && Encodable(r.result) && Nesting(r.result) <= DEPTH_CAP
  }

  /** The parts as they are written: a header of four, then each part encoded on its own. */
  function ResponseBytes(r: Response): bytes
    requires EncodableResponse(r)
  {
    EncCount(4, ArrCount) + Enc(Int(1)) + Enc(Int(r.msgid)) + Enc(r.error) + Enc(r.result)
  }

  lemma {:induction false} OneMoreItem(o: Obj, rest: seq<Obj>)
    requires Encodable(o) && EncodableItems(rest)
    ensures EncodableItems([o] + rest) && EncItems([o] + rest) == Enc(o) + EncItems(rest)
    ensures NestingItems([o] + rest) == Max(Nesting(o), NestingItems(rest))
  {
    assert ([o] + rest)[0] == o && ([o] + rest)[1..] == rest;
  }

  lemma {:induction false} ResponseBytesAreItsCode(r: Response)
    requires EncodableResponse(r)
    ensures Encodable(ResponseObj(r)) && ResponseBytes(r) == Enc(ResponseObj(r))
    ensures Nesting(ResponseObj(r)) == 1 + Max(Nesting(r.error), Nesting(r.result))
  {
    var one, id := Int(1), Int(r.msgid);
    OneMoreItem(r.result, []);
    OneMoreItem(r.error, [r.result]);
    OneMoreItem(id, [r.error, r.result]);
    OneMoreItem(one, [id, r.error, r.result]);
    assert [r.result] + [] == [r.result] && [r.error] + [r.result] == [r.error, r.result];
    assert [id] + [r.error, r.result] == [id, r.error, r.result];
    assert [one] + [id, r.error, r.result] == ResponseObj(r).items;
    Reassociate(EncCount(4, ArrCount), Enc(one), Enc(id), Enc(r.error), Enc(r.result));
  }

  lemma Reassociate(h: bytes, a: bytes, b: bytes, c: bytes, d: bytes)
    ensures h + (a + (b + (c + (d + [])))) == h + a + b + c + d
  {
  }

  /** A peer with the same decoder reads the response back exactly when no part fills the whole depth cap. */
  lemma ResponseReadsBack(r: Response, after: bytes)
    requires EncodableResponse(r)
    ensures if Nesting(r.error) < DEPTH_CAP && Nesting(r.result) < DEPTH_CAP
            then Decode(ResponseBytes(r) + after) == Ok(Wire(ResponseObj(r)), |ResponseBytes(r)|)
            else Decode(ResponseBytes(r) + after) == Malformed(TooDeep)
  {
    ResponseBytesAreItsCode(r);
    if Nesting(ResponseObj(r)) <= DEPTH_CAP {
      Laws.RoundTrip(ResponseObj(r), after);
    } else {
      Laws.TooDeepIsRejected(ResponseObj(r), after);
    }
  }
}
