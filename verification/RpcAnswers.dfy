/** What the channel of RpcSpec answers, frame by frame, said of the frames and the API alone. */
module RpcAnswers {
  import opened Bytes
  import opened MsgpackSpec
  import opened RpcSpec
  import opened RpcLaws

  /** [0, id, method, params] */
  predicate IsRequest(frame: Obj) {
    frame.Arr? && |frame.items| == 4 && frame.items[0] == Int(0) && frame.items[1].Int? && frame.items[2].Str?
  }

  /** [2, method, params] */
  predicate IsNotification(frame: Obj) {
    frame.Arr? && |frame.items| == 3 && frame.items[0] == Int(2) && frame.items[1].Str?
  }

  predicate IsMessage(frame: Obj) { IsRequest(frame) || IsNotification(frame) }

  function MethodOf(frame: Obj): bytes
    requires IsMessage(frame)
  {
    if IsRequest(frame) then frame.items[2].s else frame.items[1].s
  }

  function ParamsOf(frame: Obj): Obj
    requires IsMessage(frame)
  {
    frame.items[|frame.items| - 1]
  }

  /** The frame calls a method: it exists, and the params are an array. */
  predicate MakesCall(api: Api, frame: Obj) {
    IsMessage(frame) && api.known(MethodOf(frame)) && ParamsOf(frame).Arr?
  }

  function CallsMade(api: Api, frames: seq<Obj>): seq<Invocation> {
    if frames == [] then []
    else
      var frame := frames[|frames| - 1];
      CallsMade(api, frames[..|frames| - 1])
      + if MakesCall(api, frame) then [Invocation(MethodOf(frame), ParamsOf(frame).items)] else []
  }

  /** A validation error: its kind and its text. */
  function ErrorReply(msgid: int, text: bytes): Response {
    Response(msgid, Arr([Int(1), Str(text)]), Nil)
  }

  /** The text up to its first NUL. */
  function CText(s: bytes): bytes {
    if s == [] || s[0] == NUL then [] else [s[0]] + CText(s[1..])
  }

  /** The response to a request that comes behind the frames `before`. */
  function Reply(api: Api, before: seq<Obj>, frame: Obj): Response
    requires IsRequest(frame)
  {
    var msgid, name, params := frame.items[1].i, frame.items[2].s, frame.items[3];
    if !api.known(name) then ErrorReply(msgid, Ascii("unknown method: ") + CText(name))
    else if !params.Arr? then ErrorReply(msgid, Ascii("params must be an array"))
    else
      var outcome := api.run(CallsMade(api, before), Invocation(name, params.items));
      match outcome.error
      case None => Response(msgid, Nil, outcome.result)
      case Some(e) => Response(msgid, Arr([Int(e.kind), Str(e.msg)]), outcome.result)
  }

  /** The responses to these frames, in order. */
  function Replies(api: Api, frames: seq<Obj>): seq<Response> {
    if frames == [] then []
    else
      var before, frame := frames[..|frames| - 1], frames[|frames| - 1];
      Replies(api, before) + if IsRequest(frame) then [Reply(api, before, frame)] else []
  }

  /** Everything called and everything sent is what the frames taken so far ask for. */
  ghost predicate Faithful(api: Api, sv: Server) {
    sv.calls == CallsMade(api, sv.frames) && sv.sent == Replies(api, sv.frames)
  }

  lemma {:induction false} CTextIsCString(s: bytes)
    ensures CText(s) == CString(s)
  {
    if s != [] && s[0] != NUL {
      CTextIsCString(s[1..]);
      assert CString(s) == [s[0]] + CString(s[1..]);
    }
  }

  lemma ReplyIs(api: Api, before: seq<Obj>, frame: Obj)
    requires IsRequest(frame)
    ensures var outcome := Dispatch(api, CallsMade(api, before), frame.items[2].s, frame.items[3]);
      Reply(api, before, frame) == Response(frame.items[1].i, ErrorObj(outcome.error), outcome.result)
  {
    hide CallsMade, CText, CString, Ascii;
    CTextIsCString(frame.items[2].s);
  }

  lemma CallsAre(api: Api, before: seq<Obj>, frame: Obj)
    ensures CallsMade(api, before + [frame])
         == if IsMessage(frame) then Calls(api, CallsMade(api, before), MethodOf(frame), ParamsOf(frame))
            else CallsMade(api, before)
  {
    assert (before + [frame])[..|before|] == before;
    assert CallsMade(api, before) + [] == CallsMade(api, before);
  }

  lemma RepliesAre(api: Api, before: seq<Obj>, frame: Obj)
    ensures Replies(api, before + [frame])
         == if IsRequest(frame) then Replies(api, before) + [Reply(api, before, frame)] else Replies(api, before)
  {
    hide Reply;
    assert (before + [frame])[..|before|] == before;
    assert Replies(api, before) + [] == Replies(api, before);
  }

  lemma HandleIsFaithful(api: Api, sv: Server, frame: Obj)
    requires Faithful(api, sv)
    ensures var after := Handle(api, sv, frame);
      && Faithful(api, after) && after.frames == sv.frames + [frame]
      && (after.stopping <==> sv.stopping || !IsMessage(frame))
  {
    hide CallsMade, Replies, Reply, Dispatch, Calls, ErrorObj;
    CallsAre(api, sv.frames, frame);
    RepliesAre(api, sv.frames, frame);
    if IsRequest(frame) { ReplyIs(api, sv.frames, frame); }
  }

  lemma {:induction false} DrainIsFaithful(api: Api, sv: Server, buf: bytes)
    requires Faithful(api, sv)
    ensures Faithful(api, Drain(api, sv, buf).0)
    decreases |buf|
  {
    hide Handle, Faithful;
    StoppingIsFaithful(api, sv);
    if !sv.stopping && buf != [] && Decode(buf).Ok? {
      var frame, n := Decode(buf).value, Decode(buf).next;
      HandleIsFaithful(api, sv, frame);
      DrainIsFaithful(api, Handle(api, sv, frame), buf[n..]);
    }
  }

  lemma StoppingIsFaithful(api: Api, sv: Server)
    requires Faithful(api, sv)
    ensures Faithful(api, sv.(stopping := true))
  {
  }

  /**
   Over every run, however the stream is cut: one response per request, in order, with the error and the result of its
   own call behind the calls of the frames before it, or with a validation error and no result; and nothing else is
   called or sent.
   */
  lemma {:induction false} EveryAnswerIsItsCalls(api: Api, chunks: seq<bytes>)
    ensures var sv := Serve(api, chunks).0;
      sv.calls == CallsMade(api, sv.frames) && sv.sent == Replies(api, sv.frames)
    decreases |chunks|
  {
    hide Drain;
    if chunks != [] {
      var n := |chunks| - 1;
      EveryAnswerIsItsCalls(api, chunks[..n]);
      var (sv, buf) := Serve(api, chunks[..n]);
      DrainIsFaithful(api, sv, buf + chunks[n]);
    }
  }

  // ----- the frames of a stream -----

  /** The frames at the front of the stream, up to the first that closes the channel. */
  function FramesOf(buf: bytes): seq<Obj>
    decreases |buf|
  {
    if buf == [] then []
    else match Decode(buf)
      case Ok(frame, n) =>
        if n > MAX_MESSAGE + 1 then []
        else [frame] + if IsMessage(frame) then FramesOf(buf[n..]) else []
      case _ => []
  }

  /** The stream closes the channel: a frame that is malformed, or no message, or too long. */
  predicate Closes(buf: bytes)
    decreases |buf|
  {
    buf != []
    && match Decode(buf)
       case Incomplete => |buf| > MAX_MESSAGE
       case Malformed(_) => true
       case Ok(frame, n) =>
         n > MAX_MESSAGE + 1 || !IsMessage(frame) || Closes(buf[n..])
  }

  /** No frame of the stream is one that a single read can complete past the cap. */
  predicate NoneTips(buf: bytes)
    decreases |buf|
  {
    buf == []
    || match Decode(buf)
       case Ok(frame, n) =>
         || n > MAX_MESSAGE + READ_CHUNK
         || (n <= MAX_MESSAGE + 1 && (IsMessage(frame) ==> NoneTips(buf[n..])))
       case _ => true
  }

  lemma {:induction false} GreedyTakesTheFrames(api: Api, sv: Server, buf: bytes)
    requires Faithful(api, sv) && !sv.stopping
    ensures var r := Greedy(api, sv, buf);
      r.frames == sv.frames + FramesOf(buf) && (r.stopping <==> Closes(buf)) && Faithful(api, r)
    ensures NoFrameTips(api, sv, buf) <==> NoneTips(buf)
    decreases |buf|
  {
    hide Handle, Faithful, IsMessage, DecValue, Greedy, FramesOf, Closes, NoneTips, NoFrameTips;
    var frames := sv.frames;
    assert frames + [] == frames;
    StoppingIsFaithful(api, sv);
    OneFrame(api, sv, buf);
    if buf != [] && Decode(buf).Ok? {
      var frame, n := Decode(buf).value, Decode(buf).next;
      var next, rest := Handle(api, sv, frame), buf[n..];
      HandleIsFaithful(api, sv, frame);
      StoppedIsDone(api, next, rest);
      if IsMessage(frame) {
        GreedyTakesTheFrames(api, next, rest);
        assert frames + [frame] + FramesOf(rest) == frames + ([frame] + FramesOf(rest));
      } else {
        assert [frame] + [] == [frame];
      }
    }
  }

  lemma OneFrame(api: Api, sv: Server, buf: bytes)
    requires !sv.stopping
    ensures Decode(buf).Ok? ==> Decode(buf).next <= |buf| && 0 < Decode(buf).next
    ensures buf == [] ==>
      && Greedy(api, sv, buf) == sv && FramesOf(buf) == [] && !Closes(buf)
      && NoneTips(buf) && NoFrameTips(api, sv, buf)
    ensures buf != [] && !Decode(buf).Ok? ==>
      && Greedy(api, sv, buf) == (if Closes(buf) then sv.(stopping := true) else sv) && FramesOf(buf) == []
      && NoneTips(buf) && NoFrameTips(api, sv, buf)
    ensures buf != [] && Decode(buf).Ok? ==>
      var frame, n := Decode(buf).value, Decode(buf).next;
      var next, rest := Handle(api, sv, frame), buf[n..];
      && Greedy(api, sv, buf) == (if n > MAX_MESSAGE + 1 then sv.(stopping := true) else Greedy(api, next, rest))
      && FramesOf(buf) == (if n > MAX_MESSAGE + 1 then []
                           else [frame] + (if IsMessage(frame) then FramesOf(rest) else []))
      && (Closes(buf) <==> n > MAX_MESSAGE + 1 || !IsMessage(frame) || Closes(rest))
      && (NoneTips(buf) <==>
          n > MAX_MESSAGE + READ_CHUNK || (n <= MAX_MESSAGE + 1 && (IsMessage(frame) ==> NoneTips(rest))))
      && (NoFrameTips(api, sv, buf) <==>
          n > MAX_MESSAGE + READ_CHUNK || (n <= MAX_MESSAGE + 1 && NoFrameTips(api, next, rest)))
  {
    hide Handle, IsMessage, DecValue;
    if Decode(buf).Ok? { assert Decode(buf) == DecValue(buf, 0, 0); }
  }

  lemma StoppedIsDone(api: Api, sv: Server, buf: bytes)
    ensures sv.stopping ==> Greedy(api, sv, buf) == sv && NoFrameTips(api, sv, buf)
  {
  }

  /**
   Every list of reads of a stream in which no frame tips: the server has taken exactly the stream's frames, made their
   calls, sent their responses, and is closed exactly when the stream closes it.
   */
  lemma EveryStreamIsServed(api: Api, chunks: seq<bytes>)
    requires Reads(chunks) && NoneTips(Joined(chunks))
    ensures var frames := FramesOf(Joined(chunks));
      Serve(api, chunks).0 == Server(frames, CallsMade(api, frames), Replies(api, frames), Closes(Joined(chunks)))
  {
    hide Serve, Greedy, FramesOf, Closes, NoneTips, NoFrameTips;
    assert Faithful(api, IDLE);
    GreedyTakesTheFrames(api, IDLE, Joined(chunks));
    ServeIsGreedy(api, chunks);
    assert [] + FramesOf(Joined(chunks)) == FramesOf(Joined(chunks));
  }
}
