/** The message channel over stdio of src/mua/rpc.c, proved against RpcSpec. */
module Rpc {
  import opened Bytes
  import opened MsgpackSpec
  import opened RpcSpec
  import Laws = MsgpackLaws
  import Msgpack

  /** Producers keep results within the encoder's limits (asserted there). */
  ghost predicate EncodableOutcome(o: Outcome) {
    && Encodable(o.result) && Nesting(o.result) <= DEPTH_CAP
    && (o.error.Some? ==> INT64_MIN <= o.error.value.kind <= INT64_MAX && |o.error.value.msg| <= COUNT_MAX)
  }

  ghost predicate WellBehaved(api: Api) {
    forall calls: seq<Invocation>, call: Invocation :: EncodableOutcome(api.run(calls, call))
  }

  /** An element of a decoded array was itself decoded from the buffer. */
  lemma {:induction false} ItemWasDecoded(buf: bytes, pos: nat, depth: nat, count: nat, i: nat) returns (p: nat)
    requires pos <= |buf| && i < count && DecItems(buf, pos, depth, count).Ok?
    ensures p <= |buf| && DecValue(buf, p, depth).Ok?
    ensures DecItems(buf, pos, depth, count).value[i] == DecValue(buf, p, depth).value
    decreases count
  {
    var next := DecValue(buf, pos, depth).next;
    assert DecItems(buf, next, depth, count - 1).Ok?;
    if i == 0 {
      p := pos;
    } else {
      p := ItemWasDecoded(buf, next, depth, count - 1, i - 1);
    }
  }

  /** Integers off the wire have 64 bits, and strings no more bytes than the buffer. */
  lemma {:induction false} DecodedScalarBounds(buf: bytes, pos: nat, depth: nat)
    requires pos <= |buf| && DecValue(buf, pos, depth).Ok?
    ensures var v := DecValue(buf, pos, depth).value;
            (v.Int? ==> INT64_MIN <= v.i <= INT64_MAX) && (v.Str? ==> |v.s| <= |buf|)
  {
    var head := HeadAt(buf, pos, depth);
    if head.value.Scalar? && head.value.value.Int? {
      Laws.IntCodeIsShortest(buf, pos, depth, head.value.value.i);
    }
  }

  lemma RequestBounds(buf: bytes)
    requires Decode(buf).Ok? && Classify(Decode(buf).value).Request?
    ensures var request := Classify(Decode(buf).value);
            INT64_MIN <= request.msgid <= INT64_MAX && |request.name| <= |buf|
  {
    var head := HeadAt(buf, 0, 0);
    var id := ItemWasDecoded(buf, head.next, 1, head.value.count, 1);
    var name := ItemWasDecoded(buf, head.next, 1, head.value.count, 2);
    DecodedScalarBounds(buf, id, 1);
    DecodedScalarBounds(buf, name, 1);
  }

  ghost function WireOf(sent: seq<Response>): seq<bytes>
    requires forall i :: 0 <= i < |sent| ==> EncodableResponse(sent[i])
  {
    seq(|sent|, i requires 0 <= i < |sent| => ResponseBytes(sent[i]))
  }

  class RpcServer {
    const api: Api
    var block: bytes           // accumulated input; the first `len` bytes are not decoded yet
    var len: nat
    var stopping: bool
    var calls: seq<Invocation> // what the API has been asked so far
    var outbox: seq<bytes>     // queued writes
    ghost var sv: Server
    ghost var chunks: seq<bytes>

    ghost predicate Consistent()
      reads this
    {
      && len <= |block|
      && stopping == sv.stopping && calls == sv.calls
      && (forall i :: 0 <= i < |sv.sent| ==> EncodableResponse(sv.sent[i]))
      && outbox == WireOf(sv.sent)
      && WellBehaved(api)
    }

    /** The server is where its input so far puts it. */
    ghost predicate Valid()
      reads this
    {
      Consistent() && (sv, block[..len]) == Serve(api, chunks)
    }

    constructor (api: Api)
      requires WellBehaved(api)
      ensures Valid() && this.api == api && chunks == []
    {
      this.api := api;
      block, len, stopping, calls, outbox := [], 0, false, [], [];
      sv, chunks := IDLE, [];
    }

    method Append(data: bytes)
      requires Consistent()
      modifies this`block, this`len
      ensures Consistent() && block[..len] == old(block[..len]) + data
    {
      if len + |data| > |block| {
        var cap := if |block| != 0 then |block| else READ_CHUNK;
        while cap < len + |data|
          invariant cap >= |block| && cap > 0
        {
          cap := cap * 2;
        }
        block := block + seq(cap - |block|, _ => 0);
      }
      block := block[..len] + data + block[len + |data|..];
      len := len + |data|;
    }

    method BeginStop()
      requires Consistent()
      modifies this`stopping, this`sv
      ensures Consistent() && sv == old(sv).(stopping := true)
    {
      stopping := true;
      sv := sv.(stopping := true);
    }

    /** Queues [1, msgid, error, result]. */
    method WriteResponse(ghost r: Response, msgid: int, error: Obj, result: Obj)
      requires Consistent() && EncodableResponse(r) && r == Response(msgid, error, result)
      modifies this`outbox, this`sv
      ensures Consistent() && sv == old(sv).(sent := old(sv).sent + [r])
    {
      var w := new Msgpack.MsgpackBuffer();
      w.EncodeArrayHeader(4);
      w.Encode(Int(1));
      w.Encode(Int(msgid));
      w.Encode(error);
      w.Encode(result);
      assert [] + EncCount(4, ArrCount) == EncCount(4, ArrCount);
      assert w.Contents() == ResponseBytes(r);
      outbox := outbox + [w.Contents()];
      sv := sv.(sent := sv.sent + [r]);
    }

    /** Runs a call through the dispatch table; every failure is an outcome with an error. */
    method Call(name: bytes, params: Obj) returns (outcome: Outcome)
      requires Consistent()
      modifies this`calls, this`sv
      ensures Consistent()
      ensures outcome == Dispatch(api, old(calls), name, params)
      ensures sv == old(sv).(calls := Calls(api, old(calls), name, params))
    {
      if !api.known(name) {
        outcome := Outcome(Nil, Some(ApiError(VALIDATION, UNKNOWN_METHOD + name[..Find(name, NUL)])));
      } else if !params.Arr? {
        outcome := Outcome(Nil, Some(ApiError(VALIDATION, PARAMS_NOT_ARRAY)));
      } else {
        var call := Invocation(name, params.items);
        outcome := api.run(calls, call);
        calls := calls + [call];
      }
      sv := sv.(calls := calls);
    }

    method DispatchAndRespond(msgid: int, name: bytes, params: Obj)
      requires Consistent()
      requires INT64_MIN <= msgid <= INT64_MAX && |name| + 16 <= COUNT_MAX
      modifies this`calls, this`outbox, this`sv
      ensures Consistent()
      ensures var outcome := Dispatch(api, old(calls), name, params);
              sv == old(sv).(calls := Calls(api, old(calls), name, params),
                             sent := old(sv).sent + [Response(msgid, ErrorObj(outcome.error), outcome.result)])
    {
      var outcome := Call(name, params);
      assert EncodableOutcome(outcome);
      var error := if outcome.error.Some? then Arr([Int(outcome.error.value.kind), Str(outcome.error.value.msg)])
          else Nil;
      ErrorIsEncodable(outcome.error);
      WriteResponse(Response(msgid, error, outcome.result), msgid, error, outcome.result);
    }

    /** Routes one frame: answered, executed silently, or the end of the channel. */
    method HandleFrame(frame: Obj)
      requires Consistent()
      requires Classify(frame).Request? ==>
                 INT64_MIN <= Classify(frame).msgid <= INT64_MAX && |Classify(frame).name| + 16 <= COUNT_MAX
      modifies this`stopping, this`calls, this`outbox, this`sv
      ensures Consistent() && sv == Handle(api, old(sv), frame)
    {
      sv := sv.(frames := sv.frames + [frame]);
      if !frame.Arr? {
        BeginStop();
        return;
      }
      var a := frame.items;
      var isRequest := |a| == 4 && a[0].Int? && a[0].i == 0;
      var isNotify := |a| == 3 && a[0].Int? && a[0].i == 2;
      if isRequest {
        if !a[1].Int? || !a[2].Str? {
          BeginStop();
          return;
        }
        DispatchAndRespond(a[1].i, a[2].s, a[3]);
      } else if isNotify {
        if !a[1].Str? {
          BeginStop();
          return;
        }
        var outcome := Call(a[1].s, a[2]);
      } else {
        BeginStop();
      }
    }

    /** Takes every complete frame out of the buffer and moves the rest to its front. */
    method DrainBuffer()
      requires Consistent() && len <= MAX_MESSAGE + READ_CHUNK
      modifies this
      ensures Consistent() && chunks == old(chunks)
      ensures (sv, block[..len]) == Drain(api, old(sv), old(block[..len]))
    {
      ghost var goal := Drain(api, sv, block[..len]);
      while !stopping && len > 0
        invariant Consistent() && chunks == old(chunks) && len <= MAX_MESSAGE + READ_CHUNK
        invariant Drain(api, sv, block[..len]) == goal
        decreases len
      {
        ghost var pending := block[..len];
        var r := Decode(block[..len]);
        if r.Incomplete? {
          if len > MAX_MESSAGE {
            BeginStop();
          }
          return;
        }
        if r.Malformed? {
          BeginStop();
          return;
        }
        if Classify(r.value).Request? {
          RequestBounds(pending);
        }
        HandleFrame(r.value);
        block := block[r.next..len] + block[len - r.next..];
        len := len - r.next;
        assert block[..len] == pending[r.next..];
      }
    }

    /** One read from the peer, at most the size of the read buffer. */
    method Read(data: bytes)
      requires Valid() && |data| <= READ_CHUNK
      requires !stopping
      modifies this
      ensures Valid() && chunks == old(chunks) + [data]
      ensures (sv, block[..len]) == Serve(api, chunks)
    {
      assert len <= MAX_MESSAGE by {
        BufferBound(api, chunks, []);
        assert |block[..len]| == len;
      }
      ghost var all := chunks + [data];
      assert all[..|chunks|] == chunks;
      Append(data);
      DrainBuffer();
      chunks := all;
    }
  }

  lemma {:induction false} ErrorIsEncodable(error: Option<ApiError>)
    requires error.Some? ==> INT64_MIN <= error.value.kind <= INT64_MAX && |error.value.msg| <= COUNT_MAX
    ensures Encodable(ErrorObj(error)) && Nesting(ErrorObj(error)) <= 1
  {
    if error.Some? {
      OneMoreItem(Str(error.value.msg), []);
      OneMoreItem(Int(error.value.kind), [Str(error.value.msg)]);
      assert [Str(error.value.msg)] + [] == [Str(error.value.msg)];
      assert [Int(error.value.kind)] + [Str(error.value.msg)] == [Int(error.value.kind), Str(error.value.msg)];
    }
  }
}
