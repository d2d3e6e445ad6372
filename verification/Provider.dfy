/** The stream object of src/mua/provider/openrouter.c. */
module Provider {
  import opened Bytes
  import opened CJsonSpec
  import opened SessionSpec
  import opened AgentSpec
  import opened ProviderSpec
  import opened ProviderLaws
  import CJson

  /** OpenrouterStream.  `slots` are its tool_calls; the ghost trace records what its owner has seen. */
  class OpenrouterStream {
    const slots: array<Slot>
    var content: bytes
    var hwm: nat
    var reason: bytes
    var usage: Usage
    var attempt: nat
    var mode: Mode
    var wrongType: bool
    var status: int
    var delivered: bool
    var finished: bool
    var canceled: bool
    var request: bool
    var timer: bool
    ghost var trace: Trace

    ghost predicate Valid() { slots.Length == MAX_TOOL_CALLS }

    ghost function AccOf(): Acc
      reads this, slots
    {
      Acc(content, slots[..], hwm, reason, usage)
    }

    ghost function Abs(): (s: Stream)
      reads this, slots
      ensures |s.acc.slots| == slots.Length
    {
      Stream(attempt, mode, wrongType, status, AccOf(), delivered, finished, canceled, request, timer, trace)
    }

    /** openrouter_stream: the stream with its first attempt made. */
    constructor (issued: bool)
      ensures Valid() && fresh(slots) && Abs() == FirstStream(issued) && StreamInv(Abs())
    {
      slots := new Slot[MAX_TOOL_CALLS](_ => EMPTY_SLOT);
      content, hwm, reason, usage := [], 0, [], Usage(0, 0, 0);
      attempt, mode, wrongType, status := 0, Undecided, false, 0;
      delivered, finished, canceled, request, timer := false, false, false, false, false;
      trace := Trace([], [], 0, 0, []);
      new;
      hide StreamInv, EmptyAcc;
      AllEmpty(slots[..]);
      assert Abs() == NewStream();
      StartAttempt(issued);
    }

    /** fire_error_msg. */
    method FireError()
      modifies this`finished, this`trace
      ensures Abs() == ProviderSpec.FireError(old(Abs()))
    {
      if finished { return; }
      finished := true;
      trace := trace.(errors := trace.errors + 1);
    }

    /** assemble_message: the calls up to the high-water mark, gaps skipped. */
    method AssembleMessage() returns (message: Json)
      requires Valid()
      ensures message == Assemble(AccOf())
    {
      hide CallEntry, Entries;
      var calls: seq<Json> := [];
      var i := 0;
      while i < hwm && i < slots.Length
        invariant calls + Entries(slots[..], i, hwm) == Entries(slots[..], 0, hwm)
      {
        EntriesStep(slots[..], i, hwm);
        if slots[i].present { calls := calls + [CallEntry(slots[i])]; }
        i := i + 1;
      }
      EntriesStep(slots[..], i, hwm);
      assert calls + [] == calls;
      var head := [Member(KEY_ROLE, String(ROLE_ASSISTANT)),
                   Member(KEY_CONTENT, if content == [] then Null else String(content))];
      message := Object(if calls == [] then head else head + [Member(KEY_CALLS, Array(calls))]);
    }

    /** fire_done. */
    method FireDone()
      requires Valid()
      modifies this`finished, this`trace
      ensures Abs() == ProviderSpec.FireDone(old(Abs()))
    {
      hide Assemble, CallEntry;
      if finished { return; }
      var i := 0;
      while i < hwm && i < slots.Length
        invariant forall j :: 0 <= j < i && j < slots.Length && slots[j].present ==>
                    slots[j].id != [] && slots[j].name != []
      {
        if slots[i].present && (slots[i].id == [] || slots[i].name == []) {
          FireError();
          return;
        }
        i := i + 1;
      }
      finished := true;
      var message := AssembleMessage();
      trace := trace.(dones := trace.dones + [message]);
    }

    /** One turn of accumulate_tool_calls' loop, past the item's index. */
    method TakeFragment(f: Fragment) returns (ok: bool)
      requires Valid() && f.index < MAX_TOOL_CALLS
      modifies this`hwm, this`delivered, this`finished, this`trace, slots
      ensures var s := old(Abs()).(delivered := true);
              match Apply(s.acc.slots[f.index], f)
              case None => !ok && Abs() == ProviderSpec.FireError(s)
              case Some(slot) =>
                ok && Abs() == s.(acc := s.acc.(slots := s.acc.slots[f.index := slot],
                    hwm := Max(s.acc.hwm, f.index + 1)))
    {
      hide Apply;
      delivered := true;
      var slot := Apply(slots[f.index], f);
      if slot.None? {
        FireError();
        return false;
      }
      ghost var before := slots[..];
      slots[f.index] := slot.value;
      assert slots[..] == before[f.index := slot.value];
      hwm := Max(hwm, f.index + 1);
      ok := true;
    }

    /** accumulate_tool_calls. */
    method AccumulateToolCalls(items: seq<Json>, cut: Truncate) returns (ok: bool)
      requires Valid()
      modifies this`hwm, this`delivered, this`finished, this`trace, slots
      ensures (Abs(), ok) == TakeCalls(old(Abs()), items, cut)
    {
      hide FragmentOf, Apply, Abs, ProviderSpec.FireError, TakeItems, Heard;
      ghost var start := Abs();
      var count := 0;
      assert items[0..] == items;
      while count < |items|
        invariant count <= |items| && count <= ITEMS_PER_EVENT
        invariant TakeItems(start.acc, items, 0, cut) == TakeItems(Abs().acc, items[count..], count, cut)
        invariant Abs() == start.(acc := Abs().acc, delivered := Abs().delivered)
        invariant Abs().delivered == (start.delivered || (count > 0 && Heard(items, cut)))
        invariant count > 0 ==> Abs().delivered
      {
        ItemsTurn(Abs().acc, items[count..], count, cut);
        FirstHeard(items, cut);
        assert items[count..][0] == items[count] && items[count..][1..] == items[count + 1..];
        if count == ITEMS_PER_EVENT {
          FireError();
          return false;
        }
        var f := FragmentOf(items[count], cut);
        if f.None? {
          FireError();
          return false;
        }
        ok := TakeFragment(f.value);
        if !ok { return; }
        count := count + 1;
      }
      ItemsTurn(Abs().acc, items[count..], count, cut);
      FirstHeard(items, cut);
      ok := true;
    }

    /** The text part of openrouter_handle_event; `text` is the delta's content. */
    method TakeText(text: bytes) returns (ok: bool)
      requires Valid()
      modifies this`content, this`delivered, this`finished, this`trace
      ensures (Abs(), ok) == ProviderSpec.TakeText(old(Abs()), text)
    {
      if text == [] { return true; }
      if |content| + |text| > CONTENT_CAP {
        FireError();
        return false;
      }
      content := content + text;
      delivered := true;
      trace := trace.(text := trace.text + text);
      ok := true;
    }

    method TakeReason(choice: Json)
      requires Valid()
      modifies this`reason
      ensures Abs() == ProviderSpec.TakeReason(old(Abs()), choice)
    {
      hide GetString;
      var r := GetString(choice, KEY_REASON);
      if r.Some? {
        reason := if |r.value| < REASON_CAP then r.value else r.value[..REASON_CAP - 1];
      }
    }

    method TakeChoice(choice: Json, cut: Truncate) returns (ok: bool)
      requires Valid()
      modifies this, slots
      ensures (Abs(), ok) == ProviderSpec.TakeChoice(old(Abs()), choice, cut)
    {
      hide Abs, ProviderSpec.TakeText, TakeCalls, ProviderSpec.TakeReason, ChildObject, ChildItems, Text;
      var delta := ChildObject(choice, KEY_DELTA);
      if delta.Some? {
        ok := TakeText(Text(delta.value, KEY_CONTENT));
        if !ok { return; }
        var items := ChildItems(delta.value, KEY_CALLS);
        if items.Some? {
          ok := AccumulateToolCalls(items.value, cut);
          if !ok { return; }
        }
      }
      TakeReason(choice);
      ok := true;
    }

    method TakeUsage(doc: Json, cut: Truncate)
      requires Valid()
      modifies this`usage
      ensures Abs() == old(Abs()).(acc := old(Abs()).acc.(usage :=
          ProviderSpec.TakeUsage(old(Abs()).acc.usage, doc, cut)))
    {
      hide ProviderSpec.TakeUsage;
      usage := ProviderSpec.TakeUsage(usage, doc, cut);
    }

    /** openrouter_handle_event. */
    method HandleEvent(data: bytes, cut: Truncate) returns (more: bool)
      requires Valid()
      modifies this, slots
      ensures (Abs(), more) == ProviderSpec.HandleEvent(old(Abs()), data, cut)
    {
      IsFinished();
      hide Abs, ProviderSpec.FireError, ProviderSpec.FireDone, ProviderSpec.TakeChoice, ProviderSpec.TakeUsage,
          ParseDocument,
        ChildObject, ChildItems;
      if finished { return false; }
      if data == TEXT_DONE {
        FireDone();
        return false;
      }
      var doc := CJson.ParseText(data, EVENT_CAP);
      if doc.None? || ChildObject(doc.value, KEY_ERROR).Some? {
        FireError();
        return false;
      }
      var choices := ChildItems(doc.value, KEY_CHOICES);
      if choices.Some? && choices.value != [] {
        more := TakeChoice(choices.value[0], cut);
        if !more { return; }
      }
      TakeUsage(doc.value, cut);
      more := true;
    }

    lemma IsFinished()
      ensures Abs().finished == finished && Abs().canceled == canceled && Abs().mode == mode && Abs().request == request
      ensures Abs().delivered == delivered && Abs().attempt == attempt && Abs().status == status
      ensures Abs().acc.reason == reason
    {
    }

    /** or_on_chunk: the events of the chunk, one after the other; then the parser's own failure. */
    method OnChunk(datas: seq<bytes>, overflow: bool, cut: Truncate)
      requires Valid()
      modifies this, slots
      ensures Abs() == ProviderSpec.OnChunk(old(Abs()), datas, overflow, cut)
    {
      IsFinished();
      hide Abs, ProviderSpec.HandleEvent, ProviderSpec.FireError;
      if mode != Sse { return; }
      ghost var start := Abs();
      var i := 0;
      var more := true;
      assert datas[0..] == datas;
      while i < |datas| && more
        invariant i <= |datas|
        invariant |Abs().acc.slots| == MAX_TOOL_CALLS
        invariant TakeEvents(start, datas, cut) == if more then TakeEvents(Abs(), datas[i..], cut) else (Abs(), false)
        decreases |datas| - i
      {
        ghost var rest := datas[i..];
        assert rest[0] == datas[i] && rest[1..] == datas[i + 1..];
        more := HandleEvent(datas[i], cut);
        i := i + 1;
      }
      assert more ==> datas[i..] == [];
      if !more || overflow { FireError(); }
    }

    /** or_on_status. */
    method OnStatus(status: int, eventStream: bool)
      requires Valid()
      modifies this`status, this`mode, this`wrongType
      ensures Abs() == ProviderSpec.OnStatus(old(Abs()), status, eventStream)
    {
      this.status := status;
      if status == 200 && eventStream {
        mode := Sse;
      } else {
        mode := ErrorBody;
        if status == 200 { wrongType := true; }
      }
    }

    /** stream_destroy: closes the timer; the stream is freed behind it. */
    method Destroy()
      requires Valid()
      modifies this`request, this`timer, this`trace
      ensures Abs() == ProviderSpec.Destroy(old(Abs()))
    {
      request, timer := false, false;
      trace := trace.(destroys := trace.destroys + 1);
    }

    method FailAndDestroy()
      requires Valid()
      modifies this`finished, this`request, this`timer, this`trace
      ensures Abs() == ProviderSpec.Destroy(ProviderSpec.FireError(old(Abs())))
    {
      hide Abs, ProviderSpec.FireError, ProviderSpec.Destroy;
      FireError();
      Destroy();
    }

    /** schedule_retry. */
    method ScheduleRetry(c: Completion)
      requires Valid()
      modifies this`timer, this`trace, this`finished, this`request
      ensures var s := old(Abs());
              Abs() == if c.timerStarts
                then s.(timer := true, trace := s.trace.(delays := s.trace.delays
                    + [Delay(s.attempt, c.retryAfter, c.random)]))
                else ProviderSpec.Destroy(ProviderSpec.FireError(s))
    {
      hide Delay;
      var shift := if attempt < 6 then attempt else 6;
      var delay := ShiftedLeft(500, shift);
      if delay > 30000 { delay := 30000; }
      delay := delay / 2 + c.random % (delay / 2 + 1);
      if c.retryAfter >= 0 {
        var wait := (if c.retryAfter < 60 then c.retryAfter else 60) * 1000;
        if wait > delay { delay := wait; }
      }
      DelayIs(attempt, c, delay);
      if !c.timerStarts {
        FailAndDestroy();
        return;
      }
      timer := true;
      trace := trace.(delays := trace.delays + [delay]);
    }

    /** or_on_complete. */
    method OnComplete(c: Completion)
      requires Valid()
      modifies this`request, this`timer, this`finished, this`trace
      ensures Abs() == ProviderSpec.OnComplete(old(Abs()), c)
    {
      request := false;
      assert Abs() == old(Abs()).(request := false);
      IsFinished();
      hide Abs, ProviderSpec.FireError, ProviderSpec.FireDone, ProviderSpec.Destroy, Delay, StatusIsRetryable;
      if finished {
        Destroy();
      } else if canceled {
        FailAndDestroy();
      } else if mode == Sse && c.ok {
        if reason != [] && c.cleanEof {
          FireDone();
          Destroy();
        } else {
          FailAndDestroy();
        }
      } else {
        var retryable := false;
        if mode == ErrorBody || mode == Undecided {
          retryable := StatusIsRetryable(if c.status != 0 then c.status else status);
        }
        if !c.ok { retryable := retryable || c.retryableCode; }
        if retryable && !delivered && attempt < MAX_ATTEMPTS {
          ScheduleRetry(c);
        } else {
          FailAndDestroy();
        }
      }
    }

    /** start_attempt: every latch and accumulator is reset; `delivered` stays. */
    method StartAttempt(issued: bool)
      requires Valid()
      modifies this, slots
      ensures Abs() == ProviderSpec.StartAttempt(old(Abs()), issued) && delivered == old(delivered)
    {
      ghost var start := Abs();
      ResetForAttempt();
      ghost var ready := Abs();
      if issued {
        request := true;
        assert Abs() == ready.(request := true);
      } else {
        FailAndDestroy();
      }
      hide Abs, ProviderSpec.FireError, ProviderSpec.Destroy, EmptyAcc;
    }

    method ResetForAttempt()
      requires Valid()
      modifies this`mode, this`wrongType, this`status, this`reason, this`usage, this`content, this`hwm, this`attempt,
          slots
      ensures Abs() == old(Abs()).(attempt := old(Abs()).attempt + 1, mode := Undecided, wrongType := false,
          status := 0, acc := EmptyAcc())
    {
      hide EmptyAcc;
      ClearSlots();
      AllEmpty(slots[..]);
      mode, wrongType, status, attempt := Undecided, false, 0, attempt + 1;
      reason, usage, content, hwm := [], Usage(0, 0, 0), [], 0;
    }

    method ClearSlots()
      requires Valid()
      modifies slots
      ensures forall j :: 0 <= j < slots.Length ==> slots[j] == EMPTY_SLOT
    {
      var i := 0;
      while i < slots.Length
        invariant i <= slots.Length && forall j :: 0 <= j < i ==> slots[j] == EMPTY_SLOT
      {
        slots[i] := EMPTY_SLOT;
        i := i + 1;
      }
    }

    /** retry_timer_cb. */
    method OnRetry(issued: bool)
      requires Valid()
      modifies this, slots
      ensures Abs() == ProviderSpec.StartAttempt(old(Abs()).(timer := false), issued)
    {
      hide ProviderSpec.StartAttempt;
      ghost var start := Abs();
      timer := false;
      assert Abs() == start.(timer := false);
      StartAttempt(issued);
    }

    /** openrouter_cancel. */
    method Cancel()
      requires Valid()
      modifies this`canceled, this`timer, this`finished, this`request, this`trace
      ensures Abs() == CancelStream(old(Abs()))
    {
      if finished || canceled { return; }
      canceled := true;
      if request { return; }
      timer := false;
      FailAndDestroy();
    }

    /** Whatever can happen to the stream next keeps it sound. */
    method Step(e: StreamEvent, cut: Truncate)
      requires Valid() && StreamInv(Abs()) && CanHappen(Abs(), e)
      modifies this, slots
      ensures Abs() == NextStream(old(Abs()), e, cut) && StreamInv(Abs())
    {
      StreamStepKeeps(Abs(), e, cut);
      hide Abs, StreamInv, ProviderSpec.OnStatus, ProviderSpec.OnChunk, ProviderSpec.OnComplete,
          ProviderSpec.StartAttempt, CancelStream;
      match e {
        case StatusLine(status, eventStream) => OnStatus(status, eventStream);
        case ChunkRead(datas, overflow) => OnChunk(datas, overflow, cut);
        case TransferEnds(c) => OnComplete(c);
        case RetryDue(issued) => OnRetry(issued);
        case CancelCalled => Cancel();
      }
    }
  }

  lemma EntriesStep(slots: seq<Slot>, i: nat, hwm: nat)
    ensures Entries(slots, i, hwm) ==
      if i >= hwm || i >= |slots| then []
      else (if slots[i].present then [CallEntry(slots[i])] else []) + Entries(slots, i + 1, hwm)
  {
    hide CallEntry;
  }

  /** One turn of accumulate_tool_calls' loop. */
  lemma ItemsTurn(acc: Acc, items: seq<Json>, n: nat, cut: Truncate)
    requires |acc.slots| == MAX_TOOL_CALLS && n <= ITEMS_PER_EVENT
    ensures TakeItems(acc, items, n, cut)
      == if items == [] then (acc, true)
         else if n == ITEMS_PER_EVENT || FragmentOf(items[0], cut).None? then (acc, false)
         else
           var f := FragmentOf(items[0], cut).value;
           match Apply(acc.slots[f.index], f)
           case None => (acc, false)
           case Some(slot) =>
             TakeItems(acc.(slots := acc.slots[f.index := slot], hwm := Max(acc.hwm, f.index + 1)), items[1..], n + 1,
                 cut)
  {
    hide FragmentOf, Apply;
  }

  lemma FirstHeard(items: seq<Json>, cut: Truncate)
    ensures Heard(items, cut) <==> items != [] && FragmentOf(items[0], cut).Some?
  {
  }

  lemma AllEmpty(slots: seq<Slot>)
    requires |slots| == MAX_TOOL_CALLS && forall i :: 0 <= i < |slots| ==> slots[i] == EMPTY_SLOT
    ensures Acc([], slots, 0, [], Usage(0, 0, 0)) == EmptyAcc()
  {
    var empty := EmptyAcc().slots;
    assert forall i :: 0 <= i < |slots| ==> slots[i] == empty[i];
    assert slots == empty;
  }

  /** 500 << n. */
  method ShiftedLeft(base: nat, n: nat) returns (r: nat)
    ensures r == Doubled(base, n)
  {
    r := base;
    var i := 0;
    while i < n
      invariant i <= n && r == Doubled(base, i)
    {
      r := 2 * r;
      i := i + 1;
    }
  }

  lemma DelayIs(attempt: nat, c: Completion, delay: nat)
    requires var base := Min(Doubled(500, Min(attempt, 6)), 30000);
             var jittered := base / 2 + c.random % (base / 2 + 1);
             delay == if c.retryAfter >= 0 && Min(c.retryAfter, 60) * 1000 > jittered
                 then Min(c.retryAfter, 60) * 1000 else jittered
    ensures delay == Delay(attempt, c.retryAfter, c.random)
  {
    hide Doubled;
  }
}
