/** What repair writes, message by message, as a provider reads it. */
module AgentAnswers {
  import opened Bytes
  import opened CJsonSpec
  import opened SessionSpec
  import opened AgentSpec
  import opened AgentLaws
  import opened AgentRepair
  import E = AgentEndings

  predicate IsAnswerTo(msg: Json, id: bytes) {
    GetString(msg, Ascii("role")) == Some(Ascii("tool")) && GetString(msg, Ascii("tool_call_id")) == Some(id)
  }

  predicate IsInterrupted(msg: Json) { GetString(msg, Ascii("content")) == Some(Ascii("[interrupted]")) }

  /** From `from` on, some message answers the call with this id. */
  predicate HasAnswer(ms: seq<Json>, from: nat, id: bytes) {
    exists k :: from <= k < |ms| && IsAnswerTo(ms[k], id)
  }

  function IdOf(call: Json): Option<bytes> { GetString(call, Ascii("id")) }

  /** The assistant's calls of a message. */
  function CallsIn(msg: Json): seq<Json> {
    if GetString(msg, Ascii("role")) != Some(Ascii("assistant")) || !msg.Object? then []
    else match Lookup(msg.members, Ascii("tool_calls")) { case Some(Array(items)) => items case _ => [] }
  }

  /**
   The `k`th message is an interrupted answer to this call, which none before it has answered; without an id, to "".
   */
  predicate Answered(ms: seq<Json>, from: nat, k: nat, call: Json)
    requires k < |ms|
  {
    && IsInterrupted(ms[k])
    && if IdOf(call).Some? then IsAnswerTo(ms[k], IdOf(call).value) && !HasAnswer(ms[..k], from, IdOf(call).value)
       else IsAnswerTo(ms[k], [])
  }

  /** What was appended behind the first `n` messages is such answers to the calls `js`, in order. */
  predicate AnswersTo(ms: seq<Json>, from: nat, n: nat, calls: seq<Json>, js: seq<nat>) {
    && |ms| == n + |js|
    && forall k :: 0 <= k < |js| ==>
      && js[k] < |calls| && (k > 0 ==> js[k - 1] < js[k]) && Answered(ms, from, n + k, calls[js[k]])
  }

  lemma Keys()
    ensures KEY_ROLE == Ascii("role") && ROLE_TOOL == Ascii("tool") && KEY_CALL_ID == Ascii("tool_call_id")
    ensures SessionSpec.KEY_ID == Ascii("id") && ROLE_ASSISTANT == Ascii("assistant")
        && KEY_CALLS == Ascii("tool_calls")
  {
  }

  lemma AnsweredIff(ms: seq<Json>, from: nat, call: Json)
    ensures CallAnswered(ms, from, CallId(call)) <==> IdOf(call).Some? && HasAnswer(ms, from, IdOf(call).value)
  {
    hide Ascii, GetString;
    Keys();
    if IdOf(call).Some? {
      var id := IdOf(call).value;
      if HasAnswer(ms, from, id) {
        var k :| from <= k < |ms| && IsAnswerTo(ms[k], id);
        assert Answers(ms[k], id);
      }
      if CallAnswered(ms, from, CallId(call)) {
        var k :| from <= k < |ms| && Answers(ms[k], id);
        assert IsAnswerTo(ms[k], id);
      }
    }
  }

  lemma WrittenAnswer(ms: seq<Json>, from: nat, call: Json)
    requires !CallAnswered(ms, from, CallId(call))
    ensures Answered(ms + [ToolMessage(AnswerId(call), INTERRUPTED)], from, |ms|, call)
  {
    hide Ascii, GetString, HasAnswer, CallAnswered;
    Keys();
    E.ToolMessageReads(AnswerId(call), INTERRUPTED);
    AnsweredIff(ms, from, call);
    assert (ms + [ToolMessage(AnswerId(call), INTERRUPTED)])[..|ms|] == ms;
  }

  lemma HasAnswerStays(ms: seq<Json>, more: seq<Json>, from: nat, id: bytes)
    requires HasAnswer(ms, from, id) && ms <= more
    ensures HasAnswer(more, from, id)
  {
    hide IsAnswerTo;
    var k :| from <= k < |ms| && IsAnswerTo(ms[k], id);
    assert IsAnswerTo(more[k], id);
  }

  lemma AnsweredStays(ms: seq<Json>, more: seq<Json>, from: nat, k: nat, call: Json)
    requires k < |ms| && Answered(ms, from, k, call) && ms <= more
    ensures Answered(more, from, k, call)
  {
    hide IsInterrupted, IsAnswerTo, HasAnswer;
    assert more[..k] == ms[..k];
  }

  /** Every call from the `i`th on that has an id is answered. */
  predicate AllAnswered(ms: seq<Json>, from: nat, calls: seq<Json>, i: nat) {
    forall j :: i <= j < |calls| && IdOf(calls[j]).Some? ==> HasAnswer(ms, from, IdOf(calls[j]).value)
  }

  /** The calls from the `i`th on that have no id are among those answered. */
  predicate UnnamedIn(calls: seq<Json>, i: nat, js: seq<nat>) {
    forall j: nat :: i <= j < |calls| && IdOf(calls[j]).None? ==> j in js
  }

  /** Repair was refused an append, of the answer to a call that was still open. */
  ghost predicate RefusedAt(after: Log, calls: seq<Json>, disk: Disk) {
    exists call: Json, before: Log ::
      && call in calls && before.messages == after.messages
      && Store(before, ToolMessage(AnswerId(call), INTERRUPTED), disk) == (after, false)
  }

  lemma {:induction false} LoopAnswers(log: Log, calls: seq<Json>, from: nat, i: nat, disk: Disk) returns (js: seq<nat>)
    requires i <= |calls| && from <= |log.messages|
    ensures var (after, ok) := RepairFrom(log, calls, from, i, disk);
      && log.messages <= after.messages
      && AnswersTo(after.messages, from, |log.messages|, calls, js) && (js != [] ==> i <= js[0])
      && (ok ==> AllAnswered(after.messages, from, calls, i) && UnnamedIn(calls, i, js))
      && (!ok ==> RefusedAt(after, calls[i..], disk))
    decreases |calls| - i
  {
    hide Store, CallAnswered, Answered, HasAnswer, IdOf;
    if i == |calls| {
      js := [];
    } else if CallAnswered(log.messages, from, CallId(calls[i])) {
      AnsweredIff(log.messages, from, calls[i]);
      js := LoopAnswers(log, calls, from, i + 1, disk);
      var (after, ok) := RepairFrom(log, calls, from, i + 1, disk);
      HasAnswerStays(log.messages, after.messages, from, IdOf(calls[i]).value);
      Later(calls, i);
    } else {
      var msg := ToolMessage(AnswerId(calls[i]), INTERRUPTED);
      var (stored, taken) := Store(log, msg, disk);
      StoreEffect(log, msg, disk);
      if taken {
        js := LoopAnswers(stored, calls, from, i + 1, disk);
        WrittenAnswer(log.messages, from, calls[i]);
        js := OneMore(log.messages, stored.messages, RepairFrom(stored, calls, from, i + 1, disk).0.messages, from,
            calls, i, js);
        Later(calls, i);
      } else {
        js := [];
      }
    }
  }

  lemma Later(calls: seq<Json>, i: nat)
    requires i < |calls|
    ensures forall c :: c in calls[i + 1..] ==> c in calls[i..]
  {
    assert calls[i..] == [calls[i]] + calls[i + 1..];
  }

  lemma OneMore(ms: seq<Json>, stored: seq<Json>, after: seq<Json>, from: nat, calls: seq<Json>, i: nat, more: seq<nat>)
      returns (js: seq<nat>)
    requires i < |calls| && |stored| == |ms| + 1 && ms <= stored <= after && Answered(stored, from, |ms|, calls[i])
    requires AnswersTo(after, from, |stored|, calls, more) && (more != [] ==> i + 1 <= more[0])
    ensures js == [i] + more && AnswersTo(after, from, |ms|, calls, js)
    ensures IdOf(calls[i]).Some? ==> from <= |ms| ==> HasAnswer(after, from, IdOf(calls[i]).value)
  {
    hide HasAnswer, Answered;
    js := [i] + more;
    AnsweredStays(stored, after, from, |ms|, calls[i]);
    forall k | 0 <= k < |js|
      ensures js[k] < |calls| && (k > 0 ==> js[k - 1] < js[k]) && Answered(after, from, |ms| + k, calls[js[k]])
    {
      if k > 0 { assert js[k] == more[k - 1] && |ms| + k == |stored| + (k - 1); }
    }
    if IdOf(calls[i]).Some? && from <= |ms| { AnswerThere(after, from, |ms|, calls[i]); }
  }

  lemma AnswerThere(ms: seq<Json>, from: nat, k: nat, call: Json)
    requires from <= k < |ms| && Answered(ms, from, k, call) && IdOf(call).Some?
    ensures HasAnswer(ms, from, IdOf(call).value)
  {
    hide Ascii, GetString;
    assert IsAnswerTo(ms[k], IdOf(call).value);
  }

  lemma CallsAre(msg: Json)
    ensures CallsIn(msg) == if IsAssistant(msg) then CallsOf(msg) else []
  {
    hide Ascii, Lookup;
    Keys();
  }

  /** The last message with calls, or none. */
  predicate IsLastRound(ms: seq<Json>, r: int) {
    && -1 <= r < |ms| && (r >= 0 ==> CallsIn(ms[r]) != [])
    && forall k :: r < k < |ms| ==> CallsIn(ms[k]) == []
  }

  lemma {:induction false} LastRoundIs(ms: seq<Json>)
    ensures IsLastRound(ms, LastRound(ms))
    decreases |ms|
  {
    hide CallsIn, IsAssistant, CallsOf;
    if ms != [] {
      var n := |ms| - 1;
      CallsAre(ms[n]);
      if !IsRound(ms[n]) { LastRoundIs(ms[..n]); }
    }
  }

  /**
   Whatever the conversation and the disk: repair leaves it alone when no message has calls.  Otherwise what it adds
   answers some calls of the last such message, in order, each as interrupted, under its own id and only if nothing has
   answered that id before; and unless an append is refused, every call with an id is then answered and every call
   without one has been.
   */
  lemma RepairAnswers(log: Log, disk: Disk) returns (r: int, js: seq<nat>)
    ensures IsLastRound(log.messages, r)
    ensures var (after, ok) := Repair(log, disk);
      if r < 0 then after == log && ok
      else
        var calls := CallsIn(log.messages[r]);
        && log.messages <= after.messages && AnswersTo(after.messages, r + 1, |log.messages|, calls, js)
        && if ok then AllAnswered(after.messages, r + 1, calls, 0) && UnnamedIn(calls, 0, js)
           else RefusedAt(after, calls, disk)
  {
    hide Store, AnswersTo, AllAnswered, UnnamedIn, CallsOf, IsAssistant;
    r, js := LastRound(log.messages), [];
    LastRoundIs(log.messages);
    if r >= 0 {
      CallsAre(log.messages[r]);
      var calls := CallsOf(log.messages[r]);
      js := LoopAnswers(log, calls, r + 1, 0, disk);
      assert calls[0..] == calls;
    }
  }
}
