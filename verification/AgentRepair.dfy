/** agent_repair_session of src/mua/agent.c: answering what a crash left open. */
module AgentRepair {
  import opened Bytes
  import opened CJsonSpec
  import opened SessionSpec
  import opened AgentSpec
  import opened AgentLaws

  // ----- the function -----

  predicate IsRound(v: Json) { IsAssistant(v) && CallsOf(v) != [] }

  /** last_tool_call_round: the index of the last assistant message with calls, -1 for none. */
  function LastRound(messages: seq<Json>): (r: int)
    ensures -1 <= r < |messages|
    ensures r >= 0 ==> IsRound(messages[r])
  {
    if messages == [] then -1
    else if IsRound(messages[|messages| - 1]) then |messages| - 1
    else LastRound(messages[..|messages| - 1])
  }

  /** A tool message that names this call. */
  predicate Answers(v: Json, id: bytes) {
    GetString(v, KEY_ROLE) == Some(ROLE_TOOL) && GetString(v, KEY_CALL_ID) == Some(id)
  }

  /** call_answered. */
  predicate CallAnswered(messages: seq<Json>, from: nat, id: Option<bytes>) {
    id.Some? && exists i :: from <= i < |messages| && Answers(messages[i], id.value)
  }

  /** The loop of agent_repair_session over the calls from the `i`th on. */
  function RepairFrom(log: Log, calls: seq<Json>, from: nat, i: nat, disk: Disk): (Log, bool)
    requires i <= |calls|
    decreases |calls| - i
  {
    hide Store;
    if i == |calls| then (log, true)
    else if CallAnswered(log.messages, from, CallId(calls[i])) then RepairFrom(log, calls, from, i + 1, disk)
    else
      var (after, ok) := Store(log, ToolMessage(AnswerId(calls[i]), INTERRUPTED), disk);
      if ok then RepairFrom(after, calls, from, i + 1, disk) else (after, false)
  }

  /** agent_repair_session. */
  function Repair(log: Log, disk: Disk): (Log, bool) {
    var round := LastRound(log.messages);
    if round < 0 then (log, true) else RepairFrom(log, CallsOf(log.messages[round]), round + 1, 0, disk)
  }

  // ----- what follows the last round -----

  /** In a conversation that is not broken, the messages behind the last round are the answers to its calls. */
  lemma {:induction false} RoundTail(messages: seq<Json>)
    requires ShapeOf(messages) != Broken && LastRound(messages) >= 0
    ensures var r := LastRound(messages);
            var ids := AnswerIds(CallsOf(messages[r]));
            var behind := |messages| - r - 1;
            && ShapeOf(messages) == (if behind < |ids| then Open(ids, behind) else Complete)
            && forall i :: 0 <= i < |ids| && i < behind ==> ViewOf(messages[r + 1 + i]) == Answer(Some(ids[i]))
    decreases |messages|
  {
    hide CallsOf, IsRound, ViewOf, ShapeOf;
    var r := LastRound(messages);
    var front, last := messages[..|messages| - 1], messages[|messages| - 1];
    LastView(last);
    LastShape(messages);
    if r < |messages| - 1 {
      RoundTail(front);
      assert front[r] == messages[r];
      var ids := AnswerIds(CallsOf(messages[r]));
      forall i | 0 <= i < |ids| && i < |messages| - r - 1 ensures ViewOf(messages[r + 1 + i]) == Answer(Some(ids[i])) {
        if i < |front| - r - 1 { assert front[r + 1 + i] == messages[r + 1 + i]; }
      }
    }
  }

  lemma LastShape(messages: seq<Json>)
    requires messages != []
    ensures ShapeOf(messages) == Extend(ShapeOf(messages[..|messages| - 1]), ViewOf(messages[|messages| - 1]))
  {
  }

  lemma LastView(v: Json)
    ensures if IsRound(v) then ViewOf(v) == Round(AnswerIds(CallsOf(v))) && CallsOf(v) != [] else !ViewOf(v).Round?
  {
    hide CallsOf, GetString;
  }

  /** Without a round, an unbroken conversation is complete. */
  lemma {:induction false} NoRoundIsComplete(messages: seq<Json>)
    requires ShapeOf(messages) != Broken && LastRound(messages) < 0
    ensures ShapeOf(messages) == Complete
    decreases |messages|
  {
    hide CallsOf, IsAssistant, GetString;
    if messages != [] { NoRoundIsComplete(messages[..|messages| - 1]); }
  }

  /** A conversation cut short anywhere is no more broken than the whole: so it is with a crash. */
  lemma {:induction false} PrefixIsUnbroken(messages: seq<Json>, n: nat)
    requires ShapeOf(messages) != Broken && n <= |messages|
    ensures ShapeOf(messages[..n]) != Broken
    decreases |messages|
  {
    if n == |messages| {
      assert messages[..n] == messages;
    } else {
      var front := messages[..|messages| - 1];
      assert front[..n] == messages[..n];
      PrefixIsUnbroken(front, n);
    }
  }

  lemma AnswerView(v: Json, id: bytes)
    ensures Answers(v, id) <==> ViewOf(v) == Answer(Some(id))
  {
    hide CallsOf;
  }

  // ----- the loop -----

  /** The ids named by the tool messages from an index on. */
  predicate AnsweredIs(messages: seq<Json>, from: nat, done: seq<bytes>) {
    && from + |done| == |messages|
    && forall i :: 0 <= i < |done| ==> Answers(messages[from + i], done[i])
  }

  lemma AnsweredIff(messages: seq<Json>, from: nat, done: seq<bytes>, id: bytes)
    requires AnsweredIs(messages, from, done)
    ensures CallAnswered(messages, from, Some(id)) <==> id in done
  {
    hide GetString;
    if CallAnswered(messages, from, Some(id)) {
      var i :| from <= i < |messages| && Answers(messages[i], id);
      assert messages[from + (i - from)] == messages[i] && Answers(messages[from + (i - from)], done[i - from]);
    }
    if id in done {
      var i :| 0 <= i < |done| && done[i] == id;
      assert Answers(messages[from + i], id);
    }
  }

  predicate HaveIds(calls: seq<Json>) {
    forall i :: 0 <= i < |calls| ==> CallId(calls[i]).Some?
  }

  /** The ids of the answers that the loop appends from call `i` on, when `done` are there already. */
  function Appended(calls: seq<Json>, i: nat, done: seq<bytes>): seq<bytes>
    requires i <= |calls|
    decreases |calls| - i
  {
    if i == |calls| then []
    else
      var id := AnswerId(calls[i]);
      if CallId(calls[i]).Some? && id in done then Appended(calls, i + 1, done)
      else [id] + Appended(calls, i + 1, done + [id])
  }

  /** A conversation behind which these calls are answered. */
  function Answered(s: Shape, ids: seq<bytes>): Shape
    decreases |ids|
  {
    if ids == [] then s else Answered(Extend(s, Answer(Some(ids[0]))), ids[1..])
  }

  /** An answer appended for call `i`. */
  lemma AppendAnswer(log: Log, call: Json, from: nat, done: seq<bytes>, disk: Disk)
    requires AnsweredIs(log.messages, from, done)
    ensures var (after, ok) := Store(log, ToolMessage(AnswerId(call), INTERRUPTED), disk);
            ok ==> AnsweredIs(after.messages, from, done + [AnswerId(call)])
                   && ShapeOf(after.messages) == Extend(ShapeOf(log.messages), Answer(Some(AnswerId(call))))
  {
    hide Store, ShapeOf, ToolMessage, AnswerId, GetString, ViewOf, Extend;
    var msg := ToolMessage(AnswerId(call), INTERRUPTED);
    ToolMessageView(AnswerId(call), INTERRUPTED);
    AnswerView(msg, AnswerId(call));
    StoreEffect(log, msg, disk);
    ShapeSnoc(log.messages, msg);
  }

  lemma {:induction false} LoopAppends(log: Log, calls: seq<Json>, from: nat, i: nat, done: seq<bytes>, disk: Disk)
    requires i <= |calls| && AnsweredIs(log.messages, from, done)
    ensures var (after, ok) := RepairFrom(log, calls, from, i, disk);
      ok ==> ShapeOf(after.messages) == Answered(ShapeOf(log.messages), Appended(calls, i, done))
    decreases |calls| - i
  {
    hide Store, Answers, GetString, ShapeOf, AnsweredIs, ToolMessage, Extend;
    if i < |calls| {
      var id := AnswerId(calls[i]);
      AnsweredIff(log.messages, from, done, id);
      if CallAnswered(log.messages, from, CallId(calls[i])) {
        LoopAppends(log, calls, from, i + 1, done, disk);
      } else {
        AppendAnswer(log, calls[i], from, done, disk);
        var (after, ok) := Store(log, ToolMessage(id, INTERRUPTED), disk);
        if ok { LoopAppends(after, calls, from, i + 1, done + [id], disk); }
        var more := Appended(calls, i + 1, done + [id]);
        assert ([id] + more)[1..] == more;
      }
    }
  }

  /** Answers complete a round exactly when they are those that are missing, in order. */
  lemma {:induction false} AnsweredCompletes(ids: seq<bytes>, k: nat, more: seq<bytes>)
    requires k <= |ids|
    ensures Answered(if k < |ids| then Open(ids, k) else Complete, more) == Complete <==> more == ids[k..]
    decreases |more|
  {
    if more != [] {
      if k < |ids| && more[0] == ids[k] {
        AnsweredCompletes(ids, k + 1, more[1..]);
        assert more == [more[0]] + more[1..] && ids[k..] == [ids[k]] + ids[k + 1..];
      } else {
        BrokenStays(more[1..]);
      }
    }
  }

  lemma {:induction false} BrokenStays(more: seq<bytes>)
    ensures Answered(Broken, more) == Broken
    decreases |more|
  {
    if more != [] { BrokenStays(more[1..]); }
  }

  // ----- which rounds it completes -----

  /** The call has an id, and an earlier call of the round is answered under that id. */
  predicate Repeats(calls: seq<Json>, i: nat)
    requires i < |calls|
  {
    CallId(calls[i]).Some? && AnswerId(calls[i]) in AnswerIds(calls)[..i]
  }

  /** How many calls from the `i`th on repeat an id. */
  function RepeatCount(calls: seq<Json>, i: nat): nat
    requires i <= |calls|
    decreases |calls| - i
  {
    if i == |calls| then 0 else (if Repeats(calls, i) then 1 else 0) + RepeatCount(calls, i + 1)
  }

  /** How many of the first `k` calls have no id. */
  function Unnamed(calls: seq<Json>, k: nat): nat
    requires k <= |calls|
  {
    if k == 0 then 0 else Unnamed(calls, k - 1) + if CallId(calls[k - 1]).None? then 1 else 0
  }

  predicate BlankRun(calls: seq<Json>, k: nat, i: nat)
    requires i < |calls|
  {
    forall l :: k <= l <= i ==> AnswerId(calls[l]) == []
  }

  /** The calls that repeat an id stand in a run of empty ids from the `k`th call on. */
  predicate RepeatsAreBlank(calls: seq<Json>, k: nat) {
    forall i :: k <= i < |calls| && Repeats(calls, i) ==> BlankRun(calls, k, i)
  }

  /**
   A round open at its `k`th call is completed: as many of the open calls repeat an id as answered ones have none, and
   only empty ids right behind the answered calls are repeated.
   */
  predicate Completable(calls: seq<Json>, k: nat)
    requires k <= |calls|
  {
    RepeatCount(calls, k) == Unnamed(calls, k) && RepeatsAreBlank(calls, k)
  }

  function Blanks(n: nat): (ids: seq<bytes>)
    ensures |ids| == n && forall i :: 0 <= i < n ==> ids[i] == []
  {
    seq(n, _ => [])
  }

  /** The calls from the `i`th on that are answered in turn. */
  function Fresh(calls: seq<Json>, i: nat): (ids: seq<bytes>)
    requires i <= |calls|
    ensures |ids| + RepeatCount(calls, i) == |calls| - i
    decreases |calls| - i
  {
    if i == |calls| then []
    else (if Repeats(calls, i) then [] else [AnswerId(calls[i])]) + Fresh(calls, i + 1)
  }

  ghost predicate SameIds(a: seq<bytes>, b: seq<bytes>) { forall id :: id in a <==> id in b }

  lemma {:induction false} OpenCallsAppend(calls: seq<Json>, i: nat, done: seq<bytes>)
    requires i <= |calls| && SameIds(done, AnswerIds(calls)[..i])
    ensures Appended(calls, i, done) == Fresh(calls, i)
    decreases |calls| - i
  {
    hide CallId;
    if i < |calls| {
      var ids, id := AnswerIds(calls), AnswerId(calls[i]);
      assert ids[..i + 1] == ids[..i] + [id];
      OpenCallsAppend(calls, i + 1, if Repeats(calls, i) then done else done + [id]);
    }
  }

  lemma AppendedNext(calls: seq<Json>, i: nat, done: seq<bytes>)
    requires i < |calls|
    ensures Appended(calls, i, done)
      == if CallId(calls[i]).Some? && AnswerId(calls[i]) in done then Appended(calls, i + 1, done)
         else [AnswerId(calls[i])] + Appended(calls, i + 1, done + [AnswerId(calls[i])])
    ensures Unnamed(calls, i + 1) == Unnamed(calls, i) + if CallId(calls[i]).None? then 1 else 0
    ensures CallId(calls[i]).None? ==> AnswerId(calls[i]) == []
    ensures AnswerIds(calls)[i] == AnswerId(calls[i])
  {
    hide CallId;
  }

  /** Every answered call without an id is answered once more, before the open ones. */
  lemma {:induction false} AnsweredCallsAppend(calls: seq<Json>, k: nat, i: nat, done: seq<bytes>)
    requires i <= k <= |calls| && SameIds(done, AnswerIds(calls)[..k])
    ensures Unnamed(calls, i) <= Unnamed(calls, k)
    ensures Appended(calls, i, done) == Blanks(Unnamed(calls, k) - Unnamed(calls, i)) + Fresh(calls, k)
    decreases k - i
  {
    hide CallId, Fresh, Appended, Unnamed, Blanks, AnswerIds;
    if i == k {
      OpenCallsAppend(calls, k, done);
      assert Blanks(0) + Fresh(calls, k) == Fresh(calls, k);
    } else {
      var id := AnswerId(calls[i]);
      AppendedNext(calls, i, done);
      assert AnswerIds(calls)[..k][i] == id;
      if CallId(calls[i]).Some? {
        AnsweredCallsAppend(calls, k, i + 1, done);
      } else {
        AnsweredCallsAppend(calls, k, i + 1, done + [id]);
        OneBlankMore(Unnamed(calls, k) - Unnamed(calls, i + 1), Fresh(calls, k));
      }
    }
  }

  lemma OneBlankMore(n: nat, more: seq<bytes>)
    ensures [[]] + (Blanks(n) + more) == Blanks(n + 1) + more
  {
  }

  /** `m` answers with an empty id and the fresh ones are what is missing. */
  lemma {:induction false} MissingIff(calls: seq<Json>, i: nat, m: nat)
    requires i <= |calls|
    ensures Blanks(m) + Fresh(calls, i) == AnswerIds(calls)[i..]
      <==> RepeatCount(calls, i) == m && RepeatsAreBlank(calls, i)
    decreases |calls| - i
  {
    hide CallId, Fresh, RepeatCount, Blanks, AnswerIds, RepeatsAreBlank, Repeats;
    FreshNext(calls, i);
    if i < |calls| {
      var ids, id := AnswerIds(calls), AnswerId(calls[i]);
      assert ids[i..] == [id] + ids[i + 1..];
      BlankFrom(calls, i);
      var more := Fresh(calls, i + 1);
      if !Repeats(calls, i) {
        MissingIff(calls, i + 1, m);
        FirstMissing(id, m, more, ids[i + 1..]);
      } else if m > 0 {
        MissingIff(calls, i + 1, m - 1);
        OneBlankMore(m - 1, more);
        SameFirst([], Blanks(m - 1) + more, id, ids[i + 1..]);
      }
    }
  }

  lemma FreshNext(calls: seq<Json>, i: nat)
    requires i <= |calls|
    ensures i == |calls| ==> Fresh(calls, i) == [] && RepeatCount(calls, i) == 0 && RepeatsAreBlank(calls, i)
    ensures i < |calls| ==>
      && Fresh(calls, i) == (if Repeats(calls, i) then [] else [AnswerId(calls[i])]) + Fresh(calls, i + 1)
      && RepeatCount(calls, i) == (if Repeats(calls, i) then 1 else 0) + RepeatCount(calls, i + 1)
  {
    hide Repeats, BlankRun;
  }

  lemma SameFirst(a: bytes, s: seq<bytes>, b: bytes, t: seq<bytes>)
    ensures [a] + s == [b] + t <==> a == b && s == t
  {
    assert ([a] + s)[0] == a && ([a] + s)[1..] == s && ([b] + t)[0] == b && ([b] + t)[1..] == t;
  }

  lemma FirstMissing(id: bytes, m: nat, open: seq<bytes>, rest: seq<bytes>)
    ensures Blanks(m) + ([id] + open) == [id] + rest <==> (m == 0 || id == []) && Blanks(m) + open == rest
  {
    if m == 0 {
      assert Blanks(0) + ([id] + open) == [id] + open && Blanks(0) + open == open;
      SameFirst(id, open, id, rest);
    } else {
      assert Blanks(m) == [[]] + Blanks(m - 1) == Blanks(m - 1) + [[]];
      if id == [] {
        assert Blanks(m) + ([id] + open) == [id] + (Blanks(m) + open);
        SameFirst(id, Blanks(m) + open, id, rest);
      } else {
        assert (Blanks(m) + ([id] + open))[0] == [];
      }
    }
  }

  /** One call on. */
  lemma BlankFrom(calls: seq<Json>, i: nat)
    requires i < |calls|
    ensures RepeatsAreBlank(calls, i)
      <==> RepeatsAreBlank(calls, i + 1) && (RepeatCount(calls, i) > 0 ==> AnswerId(calls[i]) == [])
  {
    hide CallId, Repeats;
    RepeatFound(calls, i);
    forall j | i < j < |calls|
      ensures BlankRun(calls, i, j) <==> BlankRun(calls, i + 1, j) && AnswerId(calls[i]) == []
    {
    }
  }

  lemma {:induction false} RepeatFound(calls: seq<Json>, i: nat)
    requires i <= |calls|
    ensures RepeatCount(calls, i) > 0 <==> exists j :: i <= j < |calls| && Repeats(calls, j)
    decreases |calls| - i
  {
    hide Repeats;
    if i < |calls| {
      RepeatFound(calls, i + 1);
      if Repeats(calls, i) {
        assert i <= i < |calls| && Repeats(calls, i);
      } else if RepeatCount(calls, i + 1) > 0 {
        var j :| i + 1 <= j < |calls| && Repeats(calls, j);
        assert i <= j < |calls| && Repeats(calls, j);
      }
    }
  }

  // ----- the results -----

  /** What an unbroken conversation says about the calls of its last round. */
  lemma TailAnswered(messages: seq<Json>)
    requires ShapeOf(messages) != Broken && LastRound(messages) >= 0
    ensures var r := LastRound(messages);
            var ids := AnswerIds(CallsOf(messages[r]));
            var behind := |messages| - r - 1;
            if behind < |ids| then AnsweredIs(messages, r + 1, ids[..behind])
            else forall i :: 0 <= i < |ids| ==> CallAnswered(messages, r + 1, Some(ids[i]))
  {
    hide ShapeOf, CallsOf, ViewOf, GetString, IsRound;
    RoundTail(messages);
    var r := LastRound(messages);
    var ids := AnswerIds(CallsOf(messages[r]));
    var behind := |messages| - r - 1;
    forall i | 0 <= i < |ids| && i < behind ensures Answers(messages[r + 1 + i], ids[i]) {
      AnswerView(messages[r + 1 + i], ids[i]);
    }
  }

  /** A call that counts as unanswered adds a message, or fails the repair. */
  lemma RepairGrows(log: Log, calls: seq<Json>, from: nat, i: nat, disk: Disk)
    requires i < |calls| && !CallAnswered(log.messages, from, CallId(calls[i]))
    ensures RepairFrom(log, calls, from, i, disk) != (log, true)
  {
    hide Store, ToolMessage, CallAnswered;
    ToolMessageView(AnswerId(calls[i]), INTERRUPTED);
    StoreEffect(log, ToolMessage(AnswerId(calls[i]), INTERRUPTED), disk);
    var (after, ok) := Store(log, ToolMessage(AnswerId(calls[i]), INTERRUPTED), disk);
    if ok { RepairOnlyAdds(after, calls, from, i + 1, disk); }
  }

  lemma {:induction false} RepairOnlyAdds(log: Log, calls: seq<Json>, from: nat, i: nat, disk: Disk)
    requires i <= |calls|
    ensures |RepairFrom(log, calls, from, i, disk).0.messages| >= |log.messages|
    decreases |calls| - i
  {
    hide Store, ToolMessage, CallAnswered;
    if i < |calls| {
      ToolMessageView(AnswerId(calls[i]), INTERRUPTED);
      StoreEffect(log, ToolMessage(AnswerId(calls[i]), INTERRUPTED), disk);
      RepairOnlyAdds(log, calls, from, i + 1, disk);
      RepairOnlyAdds(Store(log, ToolMessage(AnswerId(calls[i]), INTERRUPTED), disk).0, calls, from, i + 1, disk);
    }
  }

  /** Every call of the last round counts as answered. */
  predicate NothingOwed(messages: seq<Json>) {
    var r := LastRound(messages);
    r >= 0 ==>
      forall i :: 0 <= i < |CallsOf(messages[r])| ==> CallAnswered(messages, r + 1, CallId(CallsOf(messages[r])[i]))
  }

  /** Repair changes nothing exactly when every call of the last round counts as answered. */
  lemma RepairIsIdleIff(log: Log, disk: Disk)
    ensures Repair(log, disk) == (log, true) <==> NothingOwed(log.messages)
  {
    hide CallsOf, IsRound, CallAnswered, RepairFrom;
    var r := LastRound(log.messages);
    if r >= 0 { LoopIsIdleIff(log, CallsOf(log.messages[r]), r + 1, 0, disk); }
  }

  lemma {:induction false} LoopIsIdleIff(log: Log, calls: seq<Json>, from: nat, i: nat, disk: Disk)
    requires i <= |calls|
    ensures RepairFrom(log, calls, from, i, disk) == (log, true)
      <==> forall j :: i <= j < |calls| ==> CallAnswered(log.messages, from, CallId(calls[j]))
    decreases |calls| - i
  {
    hide Store, CallAnswered;
    if i < |calls| {
      if CallAnswered(log.messages, from, CallId(calls[i])) {
        LoopIsIdleIff(log, calls, from, i + 1, disk);
      } else {
        RepairGrows(log, calls, from, i, disk);
      }
    }
  }

  /**
   Repairing a complete conversation changes nothing exactly when every call of its last round has an id: a call
   without one counts as unanswered for ever, and every resume answers it again.
   */
  lemma CompleteNeedsNoRepair(log: Log, disk: Disk)
    requires ShapeOf(log.messages) == Complete
    ensures Repair(log, disk) == (log, true)
      <==> (LastRound(log.messages) >= 0 ==> HaveIds(CallsOf(log.messages[LastRound(log.messages)])))
  {
    hide ShapeOf, CallsOf, CallId, IsRound, CallAnswered, Repair;
    RepairIsIdleIff(log, disk);
    var r := LastRound(log.messages);
    if r >= 0 {
      var calls := CallsOf(log.messages[r]);
      RoundTail(log.messages);
      TailAnswered(log.messages);
      forall i | 0 <= i < |calls|
        ensures CallAnswered(log.messages, r + 1, CallId(calls[i])) <==> CallId(calls[i]).Some?
      {
        NamedIsAnswered(log.messages, r + 1, calls[i]);
        assert AnswerIds(calls)[i] == AnswerId(calls[i]);
      }
    }
  }

  lemma NamedIsAnswered(messages: seq<Json>, from: nat, call: Json)
    ensures CallId(call).Some? ==> CallId(call) == Some(AnswerId(call))
    ensures CallAnswered(messages, from, CallId(call)) ==> CallId(call).Some?
  {
    hide CallId;
  }

  /**
   Repairing a conversation whose last round is open after `k` answers, when every append succeeds: it is complete
   exactly when the round is completable.
   */
  lemma RepairCompletesTheRound(log: Log, k: nat, disk: Disk)
    requires LastRound(log.messages) >= 0
    requires ShapeOf(log.messages) == Open(AnswerIds(CallsOf(log.messages[LastRound(log.messages)])), k)
    requires Repair(log, disk).1
    ensures k < |CallsOf(log.messages[LastRound(log.messages)])|
    ensures ShapeOf(Repair(log, disk).0.messages) == Complete
      <==> Completable(CallsOf(log.messages[LastRound(log.messages)]), k)
  {
    hide ShapeOf, CallsOf, GetString, IsRound, RepairFrom, Appended, Answered, Fresh, RepeatCount, Unnamed;
    var r := LastRound(log.messages);
    var calls := CallsOf(log.messages[r]);
    var ids := AnswerIds(calls);
    RoundTail(log.messages);
    TailAnswered(log.messages);
    LoopAppends(log, calls, r + 1, 0, ids[..k], disk);
    AnsweredCallsAppend(calls, k, 0, ids[..k]);
    NoneUnnamed(calls);
    AnsweredCompletes(ids, k, Appended(calls, 0, ids[..k]));
    MissingIff(calls, k, Unnamed(calls, k));
  }

  lemma NoneUnnamed(calls: seq<Json>)
    ensures Unnamed(calls, 0) == 0
  {
  }

  /**
   When no id is empty: the round is completed exactly when every answered call has an id and no open call repeats
   an id of the round.
   */
  lemma CompletableIff(calls: seq<Json>, k: nat)
    requires k <= |calls| && forall i :: 0 <= i < |calls| ==> CallId(calls[i]) != Some([])
    ensures Completable(calls, k) <==> HaveIds(calls[..k]) && forall i :: k <= i < |calls| ==> !Repeats(calls, i)
  {
    hide CallId, Repeats, RepeatCount;
    RepeatFound(calls, k);
    UnnamedFound(calls, k);
    forall i | k <= i < |calls| && Repeats(calls, i) ensures !BlankRun(calls, k, i) { RepeatIsNamed(calls, i); }
  }

  /** The two rounds that repair breaks: an answered call without an id, and an open call whose id is taken. */
  lemma NotCompletable(calls: seq<Json>, k: nat, i: nat)
    requires k < |calls| && i < |calls| && AnswerId(calls[k]) != []
    requires if i < k then CallId(calls[i]).None? else Repeats(calls, i)
    ensures !Completable(calls, k)
  {
    hide CallId, Repeats, RepeatCount, Unnamed;
    RepeatFound(calls, k);
    UnnamedFound(calls, k);
    if i < k { assert calls[..k][i] == calls[i]; }
  }

  lemma RepeatIsNamed(calls: seq<Json>, i: nat)
    requires i < |calls| && Repeats(calls, i) && CallId(calls[i]) != Some([])
    ensures AnswerId(calls[i]) != []
  {
    hide CallId;
  }

  lemma {:induction false} UnnamedFound(calls: seq<Json>, k: nat)
    requires k <= |calls|
    ensures Unnamed(calls, k) == 0 <==> HaveIds(calls[..k])
  {
    hide CallId;
    if k > 0 {
      UnnamedFound(calls, k - 1);
      assert calls[..k] == calls[..k - 1] + [calls[k - 1]];
    }
  }

  /** What a repair needs of a conversation, open or complete. */
  predicate Completes(messages: seq<Json>) {
    var r := LastRound(messages);
    r < 0 ||
      var calls, behind := CallsOf(messages[r]), |messages| - r - 1;
      if behind < |calls| then Completable(calls, behind) else HaveIds(calls)
  }

  /** An unbroken conversation, open or not, and a repair whose appends succeed: exactly when it ends complete. */
  lemma RepairCompletes(log: Log, disk: Disk)
    requires ShapeOf(log.messages) != Broken && Repair(log, disk).1
    ensures ShapeOf(Repair(log, disk).0.messages) == Complete <==> Completes(log.messages)
  {
    hide ViewOf, IsAssistant, CallsOf, HaveIds, Repair, ShapeOf, Completable;
    var r := LastRound(log.messages);
    if r < 0 {
      NoRoundIsComplete(log.messages);
      NothingToRepair(log, disk);
    } else {
      RoundTail(log.messages);
      if ShapeOf(log.messages) == Complete {
        CompleteIsKeptIff(log, disk);
      } else {
        RepairCompletesTheRound(log, ShapeOf(log.messages).answered, disk);
      }
    }
  }

  /** A further answer breaks a complete conversation. */
  lemma CompleteIsKeptIff(log: Log, disk: Disk)
    requires ShapeOf(log.messages) == Complete && Repair(log, disk).1 && LastRound(log.messages) >= 0
    ensures ShapeOf(Repair(log, disk).0.messages) == Complete
      <==> HaveIds(CallsOf(log.messages[LastRound(log.messages)]))
  {
    hide ShapeOf, CallsOf, GetString, IsRound, HaveIds, RepairFrom;
    var r := LastRound(log.messages);
    CompleteNeedsNoRepair(log, disk);
    LoopBreaks(log, CallsOf(log.messages[r]), r + 1, 0, disk);
  }

  lemma {:induction false} LoopBreaks(log: Log, calls: seq<Json>, from: nat, i: nat, disk: Disk)
    requires i <= |calls| && (ShapeOf(log.messages) == Complete || ShapeOf(log.messages) == Broken)
    ensures var (after, ok) := RepairFrom(log, calls, from, i, disk);
      ok ==> (ShapeOf(after.messages) == Complete <==> ShapeOf(log.messages) == Complete && after == log)
    decreases |calls| - i
  {
    hide Store, ShapeOf, ToolMessage, CallAnswered, GetString;
    if i < |calls| {
      if CallAnswered(log.messages, from, CallId(calls[i])) {
        LoopBreaks(log, calls, from, i + 1, disk);
      } else {
        var msg := ToolMessage(AnswerId(calls[i]), INTERRUPTED);
        ToolMessageView(AnswerId(calls[i]), INTERRUPTED);
        StoreEffect(log, msg, disk);
        ShapeSnoc(log.messages, msg);
        RepairGrows(log, calls, from, i, disk);
        var (after, ok) := Store(log, msg, disk);
        if ok { LoopBreaks(after, calls, from, i + 1, disk); }
      }
    }
  }

  lemma NothingToRepair(log: Log, disk: Disk)
    requires LastRound(log.messages) < 0
    ensures Repair(log, disk) == (log, true)
  {
  }
}
