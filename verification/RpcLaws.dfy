/** How the channel of RpcSpec depends on the reads that its input arrives in. */
module RpcLaws {
  import opened Bytes
  import opened MsgpackSpec
  import opened RpcSpec
  import Laws = MsgpackLaws

  /** Reads as the server makes them. */
  predicate Reads(chunks: seq<bytes>) {
    forall i :: 0 <= i < |chunks| ==> |chunks[i]| <= READ_CHUNK
  }

  /**
   No frame that draining `buf` takes is one that a single read can complete past the cap.  A frame longer than that
   is never completed, whatever the reads: the channel closes inside it.
   */
  predicate NoFrameTips(api: Api, sv: Server, buf: bytes)
    decreases |buf|
  {
    if sv.stopping || buf == [] then true
    else match Decode(buf)
      case Ok(frame, n) =>
        n > MAX_MESSAGE + READ_CHUNK || (n <= MAX_MESSAGE + 1 && NoFrameTips(api, Handle(api, sv, frame), buf[n..]))
      case _ => true
  }

  /** Greedy decoding of a whole stream, where a frame over the cap closes the channel. */
  function Greedy(api: Api, sv: Server, buf: bytes): Server
    decreases |buf|
  {
    if sv.stopping || buf == [] then sv
    else match Decode(buf)
      case Incomplete => if |buf| > MAX_MESSAGE then sv.(stopping := true) else sv
      case Malformed(_) => sv.(stopping := true)
      case Ok(frame, n) =>
        if n > MAX_MESSAGE + 1 then sv.(stopping := true) else Greedy(api, Handle(api, sv, frame), buf[n..])
  }

  /** A frame still incomplete in `a` is longer than `a`. */
  lemma CompletesLater(a: bytes, b: bytes)
    requires Decode(a).Incomplete?
    ensures Decode(a + b).Ok? ==> Decode(a + b).next > |a|
  {
    if Decode(a + b).Ok? && Decode(a + b).next <= |a| {
      assert (a + b)[..|a|] == a;
      Laws.CodeIsSelfContained(a + b, |a|);
    }
  }

  /** What the channel has done after `a` it has also done after `a + b`; a closed one does nothing more. */
  lemma {:induction false} GreedyContinues(api: Api, sv: Server, a: bytes, b: bytes)
    requires NoFrameTips(api, sv, a + b)
    ensures NoFrameTips(api, sv, a)
    ensures var mid := Greedy(api, sv, a);
      if mid.stopping then Greedy(api, sv, a + b) == mid
      else
        && Drain(api, sv, a).0 == mid
        && var rest := Drain(api, sv, a).1;
        && Greedy(api, sv, a + b) == Greedy(api, mid, rest + b) && NoFrameTips(api, mid, rest + b)
    decreases |a|
  {
    hide Handle;
    if sv.stopping || a == [] {
      assert a == [] ==> a + b == b;
    } else {
      match Decode(a) {
        case Ok(frame, n) =>
          Laws.VerdictStable(a, b);
          assert (a + b)[n..] == a[n..] + b;
          if n <= MAX_MESSAGE + 1 { GreedyContinues(api, Handle(api, sv, frame), a[n..], b); }
        case Malformed(_) =>
          Laws.VerdictStable(a, b);
        case Incomplete =>
          CompletesLater(a, b);
      }
    }
  }

  /** What fits into the buffer of one read is drained greedily. */
  lemma {:induction false} DrainIsGreedy(api: Api, sv: Server, buf: bytes)
    requires NoFrameTips(api, sv, buf) && |buf| <= MAX_MESSAGE + READ_CHUNK
    ensures Drain(api, sv, buf).0 == Greedy(api, sv, buf)
    decreases |buf|
  {
    hide Handle;
    if !sv.stopping && buf != [] && Decode(buf).Ok? {
      DrainIsGreedy(api, Handle(api, sv, Decode(buf).value), buf[Decode(buf).next..]);
    }
  }

  lemma {:induction false} DrainContinues(api: Api, sv: Server, a: bytes, b: bytes)
    requires !Greedy(api, sv, a).stopping
    ensures var (mid, rest) := Drain(api, sv, a); Drain(api, sv, a + b) == Drain(api, mid, rest + b)
    decreases |a|
  {
    hide Handle;
    if a == [] {
      assert a + b == b;
    } else if Decode(a).Ok? {
      var frame, n := Decode(a).value, Decode(a).next;
      Laws.VerdictStable(a, b);
      assert (a + b)[n..] == a[n..] + b;
      DrainContinues(api, Handle(api, sv, frame), a[n..], b);
    }
  }

  lemma DrainTwice(api: Api, sv: Server, a: bytes, b: bytes)
    requires !Greedy(api, sv, a).stopping && NoFrameTips(api, sv, a + b)
    requires |Drain(api, sv, a).1 + b| <= MAX_MESSAGE + READ_CHUNK
    ensures var (mid, rest) := Drain(api, sv, a);
      Drain(api, mid, rest + b) == Drain(api, sv, a + b) && Drain(api, sv, a + b).0 == Greedy(api, sv, a + b)
  {
    hide Drain, Greedy, NoFrameTips;
    GreedyContinues(api, sv, a, b);
    DrainIsGreedy(api, Drain(api, sv, a).0, Drain(api, sv, a).1 + b);
    DrainContinues(api, sv, a, b);
  }

  /** Every way of reading a stream without a tipping frame does what greedy decoding of the stream does. */
  lemma {:induction false} ServeIsGreedy(api: Api, chunks: seq<bytes>)
    requires Reads(chunks) && NoFrameTips(api, IDLE, Joined(chunks))
    ensures Serve(api, chunks).0 == Greedy(api, IDLE, Joined(chunks))
    ensures !Serve(api, chunks).0.stopping ==> Serve(api, chunks) == Drain(api, IDLE, Joined(chunks))
    decreases |chunks|
  {
    hide Drain, Greedy, NoFrameTips;
    if chunks == [] {
      NothingToDrain(api);
    } else {
      var n := |chunks| - 1;
      var a, b := Joined(chunks[..n]), chunks[n];
      GreedyContinues(api, IDLE, a, b);
      ServeIsGreedy(api, chunks[..n]);
      var (sv, rest) := Serve(api, chunks[..n]);
      if sv.stopping {
        ClosedDrainsNothing(api, sv, rest + b);
      } else {
        BufferBound(api, chunks[..n], b);
        DrainTwice(api, IDLE, a, b);
      }
    }
  }

  lemma NothingToDrain(api: Api)
    ensures var none: bytes := []; Drain(api, IDLE, none) == (IDLE, none) && Greedy(api, IDLE, none) == IDLE
  {
  }

  lemma ClosedDrainsNothing(api: Api, sv: Server, buf: bytes)
    requires sv.stopping
    ensures Drain(api, sv, buf) == (sv, buf)
  {
  }

  // ----- a frame that tips -----

  /** A stream in full reads. */
  function Split(s: bytes): (chunks: seq<bytes>)
    ensures Reads(chunks) && Joined(chunks) == s
    decreases |s|
  {
    if |s| == 0 then []
    else
      var k := if |s| > READ_CHUNK then |s| - READ_CHUNK else 0;
      assert (Split(s[..k]) + [s[k..]])[..|Split(s[..k])|] == Split(s[..k]);
      Split(s[..k]) + [s[k..]]
  }

  /** Frames are only ever added, and none once the channel is closed. */
  lemma {:induction false} DrainAdds(api: Api, sv: Server, buf: bytes)
    ensures |Drain(api, sv, buf).0.frames| >= |sv.frames|
    decreases |buf|
  {
    if !sv.stopping && buf != [] && Decode(buf).Ok? {
      DrainAdds(api, Handle(api, sv, Decode(buf).value), buf[Decode(buf).next..]);
    }
  }

  lemma {:induction false} ServeAdds(api: Api, before: seq<bytes>, after: seq<bytes>)
    ensures var (sv, end) := (Serve(api, before).0, Serve(api, before + after).0);
      |end.frames| >= |sv.frames| && (sv.stopping ==> end == sv)
    decreases |after|
  {
    hide Drain;
    if after == [] {
      assert before + after == before;
    } else {
      var n := |after| - 1;
      assert (before + after)[..|before + after| - 1] == before + after[..n];
      ServeAdds(api, before, after[..n]);
      var (sv, rest) := Serve(api, before + after[..n]);
      DrainAdds(api, sv, rest + after[n]);
      if sv.stopping { ClosedDrainsNothing(api, sv, rest + after[n]); }
    }
  }

  /** Where the first tipping frame starts, and what the channel has done when it gets there. */
  lemma {:induction false} TippingFrame(api: Api, sv: Server, s: bytes) returns (at: nat, mid: Server)
    requires !NoFrameTips(api, sv, s)
    ensures at <= |s| && !mid.stopping && Decode(s[at..]).Ok?
    ensures MAX_MESSAGE + 1 < Decode(s[at..]).next <= MAX_MESSAGE + READ_CHUNK
    ensures forall k :: at < k < at + Decode(s[at..]).next ==>
      NoFrameTips(api, sv, s[..k])
      && Greedy(api, sv, s[..k]) == (if k > at + MAX_MESSAGE then mid.(stopping := true) else mid)
      && (k <= at + MAX_MESSAGE ==> Drain(api, sv, s[..k]) == (mid, s[at..k]))
    decreases |s|
  {
    hide Handle;
    var frame, n := Decode(s).value, Decode(s).next;
    if n > MAX_MESSAGE + 1 {
      at, mid := 0, sv;
      assert s[0..] == s;
      forall k | 0 < k < n
        ensures NoFrameTips(api, sv, s[..k])
          && Greedy(api, sv, s[..k]) == (if k > MAX_MESSAGE then mid.(stopping := true) else mid)
          && (k <= MAX_MESSAGE ==> Drain(api, sv, s[..k]) == (mid, s[..k]))
      {
        Laws.CodeIsSelfContained(s, k);
      }
    } else {
      var deeper, end := TippingFrame(api, Handle(api, sv, frame), s[n..]);
      at, mid := n + deeper, end;
      assert s[n..][deeper..] == s[at..];
      forall k | at < k < at + Decode(s[at..]).next
        ensures NoFrameTips(api, sv, s[..k])
          && Greedy(api, sv, s[..k]) == (if k > at + MAX_MESSAGE then mid.(stopping := true) else mid)
          && (k <= at + MAX_MESSAGE ==> Drain(api, sv, s[..k]) == (mid, s[at..k]))
      {
        Laws.CodeIsSelfContained(s, k);
        assert s[..k][n..] == s[n..][..k - n] && s[n..][deeper..k - n] == s[at..k];
      }
    }
  }

  /** A read that ends one byte past the cap closes the channel inside the frame. */
  lemma CutBefore(api: Api, s: bytes, at: nat, mid: Server) returns (chunks: seq<bytes>)
    requires at + MAX_MESSAGE + 1 <= |s| && !mid.stopping
    requires NoFrameTips(api, IDLE, s[..at + MAX_MESSAGE + 1])
    requires Greedy(api, IDLE, s[..at + MAX_MESSAGE + 1]) == mid.(stopping := true)
    ensures Reads(chunks) && Joined(chunks) == s && Serve(api, chunks).0 == mid.(stopping := true)
  {
    hide Drain, Greedy, NoFrameTips, Serve, Joined;
    var k := at + MAX_MESSAGE + 1;
    var front, back := Split(s[..k]), Split(s[k..]);
    chunks := front + back;
    JoinedConcat(front, back);
    assert s[..k] + s[k..] == s;
    ServeIsGreedy(api, front);
    ServeAdds(api, front, back);
  }

  /** A read that starts at the cap or before and reaches the frame's end delivers the frame. */
  lemma CutBehind(api: Api, s: bytes, at: nat, mid: Server) returns (chunks: seq<bytes>)
    requires at + MAX_MESSAGE <= |s| && !mid.stopping && Decode(s[at..]).Ok?
    requires MAX_MESSAGE + 1 < Decode(s[at..]).next <= MAX_MESSAGE + READ_CHUNK
    requires NoFrameTips(api, IDLE, s[..at + MAX_MESSAGE]) && Greedy(api, IDLE, s[..at + MAX_MESSAGE]) == mid
    requires Drain(api, IDLE, s[..at + MAX_MESSAGE]) == (mid, s[at..at + MAX_MESSAGE])
    ensures Reads(chunks) && Joined(chunks) == s && |Serve(api, chunks).0.frames| > |mid.frames|
  {
    hide Drain, Greedy, NoFrameTips, Serve, Joined;
    var k, n := at + MAX_MESSAGE, Decode(s[at..]).next;
    var front, middle, back := Split(s[..k]), s[k..at + n], Split(s[at + n..]);
    chunks := front + [middle] + back;
    JoinedConcat(front, [middle]);
    JoinedConcat(front + [middle], back);
    OneChunk(middle);
    assert s[..k] + middle + s[at + n..] == s;
    ServeIsGreedy(api, front);
    OneMoreRead(api, front, middle);
    assert s[at..k] + middle == s[at..][..n];
    Delivered(api, mid, s[at..], n);
    ServeAdds(api, front + [middle], back);
  }

  lemma OneChunk(c: bytes)
    ensures Joined([c]) == c
  {
    assert [c][..0] == [];
  }

  lemma OneMoreRead(api: Api, chunks: seq<bytes>, read: bytes)
    ensures var (sv, buf) := Serve(api, chunks); Serve(api, chunks + [read]) == Drain(api, sv, buf + read)
  {
    hide Drain;
    assert (chunks + [read])[..|chunks|] == chunks;
  }

  lemma Delivered(api: Api, sv: Server, buf: bytes, n: nat)
    requires !sv.stopping && Decode(buf).Ok? && n == Decode(buf).next > 0
    ensures |Drain(api, sv, buf[..n]).0.frames| > |sv.frames|
  {
    Laws.CodeIsSelfContained(buf, n);
    DrainAdds(api, Handle(api, sv, Decode(buf).value), buf[..n][n..]);
  }

  /** Two ways of reading such a stream that end differently, both within the reads a server makes. */
  lemma TippingFrameIsCut(api: Api, s: bytes) returns (x: seq<bytes>, y: seq<bytes>)
    requires !NoFrameTips(api, IDLE, s)
    ensures Reads(x) && Reads(y) && Joined(x) == s && Joined(y) == s
    ensures Serve(api, x).0 != Serve(api, y).0
  {
    hide Drain, Greedy, NoFrameTips, Serve, Joined;
    var at, mid := TippingFrame(api, IDLE, s);
    var k := at + MAX_MESSAGE;
    x := CutBefore(api, s, at, mid);
    y := CutBehind(api, s, at, mid);
  }

  /** What the server does is independent of how its input is read exactly when no frame tips. */
  lemma ChunkingIsInvisible(api: Api, s: bytes)
    ensures NoFrameTips(api, IDLE, s) <==>
      (forall x: seq<bytes>, y: seq<bytes> :: Reads(x) && Reads(y) && Joined(x) == s && Joined(y) == s ==>
         Serve(api, x).0 == Serve(api, y).0)
  {
    hide Drain, Greedy, NoFrameTips, Serve, Joined;
    if NoFrameTips(api, IDLE, s) {
      forall x: seq<bytes>, y: seq<bytes> | Reads(x) && Reads(y) && Joined(x) == s && Joined(y) == s
        ensures Serve(api, x).0 == Serve(api, y).0
      {
        ServeIsGreedy(api, x);
        ServeIsGreedy(api, y);
      }
    } else {
      var x, y := TippingFrameIsCut(api, s);
    }
  }
}
