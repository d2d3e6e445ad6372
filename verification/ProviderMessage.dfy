/** The message a stream reports, from the events of the attempt that succeeded. */
module ProviderMessage {
  import opened Bytes
  import opened CJsonSpec
  import opened SessionSpec
  import opened AgentSpec
  import opened ProviderSpec
  import opened ProviderLaws

  // ----- what one event carries -----

  /** The delta of an event's first choice. */
  function Delta(data: bytes): Option<Json> {
    match ParseDocument(data, EVENT_CAP)
    case None => None
    case Some(doc) =>
      match ChildItems(doc, KEY_CHOICES)
      case None => None
      case Some(choices) => if choices == [] then None else ChildObject(choices[0], KEY_DELTA)
  }

  function EventText(data: bytes): bytes {
    match Delta(data) case None => [] case Some(delta) => Text(delta, KEY_CONTENT)
  }

  /** The tool-call fragments of an event; None when one is malformed. */
  function EventFragments(data: bytes, cut: Truncate): Option<seq<Fragment>> {
    match Delta(data)
    case None => Some([])
    case Some(delta) =>
      match ChildItems(delta, KEY_CALLS)
      case None => Some([])
      case Some(items) => Fragments(items, cut)
  }

  function TextOf(datas: seq<bytes>): bytes {
    if datas == [] then [] else TextOf(datas[..|datas| - 1]) + EventText(datas[|datas| - 1])
  }

  function FragmentsOf(datas: seq<bytes>, cut: Truncate): Option<seq<Fragment>> {
    if datas == [] then Some([])
    else
      var front, last := FragmentsOf(datas[..|datas| - 1], cut), EventFragments(datas[|datas| - 1], cut);
      if front.None? || last.None? then None else Some(front.value + last.value)
  }

  // ----- the message they make -----

  /** Every call's fragments fold. */
  predicate AllFold(fs: seq<Fragment>) {
    forall i :: 0 <= i < MAX_TOOL_CALLS ==> Folded(EMPTY_SLOT, Only(fs, i)).Some?
  }

  function FoldedSlots(fs: seq<Fragment>): seq<Slot>
    requires AllFold(fs)
  {
    seq(MAX_TOOL_CALLS, i requires 0 <= i < MAX_TOOL_CALLS => Folded(EMPTY_SLOT, Only(fs, i)).value)
  }

  /** One entry per call that some fragment names, by ascending index, each the fold of its own fragments. */
  function Message(text: bytes, fs: seq<Fragment>): Json
    requires AllFold(fs)
  {
    Assemble(Acc(text, FoldedSlots(fs), MAX_TOOL_CALLS, [], Usage(0, 0, 0)))
  }

  /** Every call that some fragment names has an id and a name. */
  predicate AllNamed(fs: seq<Fragment>)
    requires AllFold(fs)
  {
    forall i :: 0 <= i < MAX_TOOL_CALLS && FoldedSlots(fs)[i].present ==>
      FoldedSlots(fs)[i].id != [] && FoldedSlots(fs)[i].name != []
  }

  /** The accumulators hold these events. */
  predicate Holds(acc: Acc, datas: seq<bytes>, cut: Truncate) {
    var fs := FragmentsOf(datas, cut);
    && SlotsSound(acc) && acc.content == TextOf(datas)
    && fs.Some? && InRange(fs.value) && Accumulate(EmptySlots(MAX_TOOL_CALLS), fs.value) == Some(acc.slots)
  }

  lemma {:induction false} HeldMessage(acc: Acc, datas: seq<bytes>, cut: Truncate)
    requires Holds(acc, datas, cut)
    ensures FragmentsOf(datas, cut).Some? && AllFold(FragmentsOf(datas, cut).value)
    ensures Assemble(acc) == Message(TextOf(datas), FragmentsOf(datas, cut).value)
    ensures CallsComplete(acc) ==> AllNamed(FragmentsOf(datas, cut).value)
  {
    hide Assemble, Accumulate, TextOf, FragmentsOf, EmptySlots, Folded, Only;
    var fs := FragmentsOf(datas, cut).value;
    AccumulateIsPerIndex(EmptySlots(MAX_TOOL_CALLS), fs);
    assert FoldedSlots(fs) == acc.slots;
    SameSlotsSameMessage(acc, Acc(acc.content, FoldedSlots(fs), MAX_TOOL_CALLS, [], Usage(0, 0, 0)));
  }

  // ----- events add up -----

  /** What a choice's delta adds when it is taken. */
  lemma TakeChoiceAdds(s: Stream, choice: Json, cut: Truncate)
    requires |s.acc.slots| == MAX_TOOL_CALLS && TakeChoice(s, choice, cut).1
    ensures var t := TakeChoice(s, choice, cut).0;
      var delta := ChildObject(choice, KEY_DELTA);
      var items := if delta.Some? then ChildItems(delta.value, KEY_CALLS) else None;
      && t.acc.content == s.acc.content + (if delta.Some? then Text(delta.value, KEY_CONTENT) else [])
      && (items.Some? ==>
            Fragments(items.value, cut).Some? && InRange(Fragments(items.value, cut).value)
            && Accumulate(s.acc.slots, Fragments(items.value, cut).value) == Some(t.acc.slots))
      && (items.None? ==> t.acc.slots == s.acc.slots)
  {
    hide TakeText, TakeCalls, TakeReason, ChildObject, ChildItems, Text, Fragments, Accumulate, InRange;
    assert s.acc.content + [] == s.acc.content;
    var delta := ChildObject(choice, KEY_DELTA);
    if delta.Some? {
      var t := TakeText(s, Text(delta.value, KEY_CONTENT)).0;
      TakeTextAdds(s, Text(delta.value, KEY_CONTENT));
      var items := ChildItems(delta.value, KEY_CALLS);
      if items.Some? {
        TakeCallsAdds(t, items.value, cut);
        ReasonAddsNothing(TakeCalls(t, items.value, cut).0, choice);
      } else {
        ReasonAddsNothing(t, choice);
      }
    } else {
      ReasonAddsNothing(s, choice);
    }
  }

  lemma TakeTextAdds(s: Stream, text: bytes)
    ensures TakeText(s, text).1 ==>
      TakeText(s, text).0.acc.content == s.acc.content + text && TakeText(s, text).0.acc.slots == s.acc.slots
  {
    assert text == [] ==> s.acc.content + text == s.acc.content;
  }

  lemma ReasonAddsNothing(s: Stream, choice: Json)
    ensures var t := TakeReason(s, choice);
      t.acc.content == s.acc.content && t.acc.slots == s.acc.slots && t.trace == s.trace && t.finished == s.finished
  {
    hide GetString;
  }

  lemma TakeCallsAdds(s: Stream, items: seq<Json>, cut: Truncate)
    requires |s.acc.slots| == MAX_TOOL_CALLS && TakeCalls(s, items, cut).1
    ensures var t := TakeCalls(s, items, cut).0;
      && t.acc.content == s.acc.content && Fragments(items, cut).Some? && InRange(Fragments(items, cut).value)
      && Accumulate(s.acc.slots, Fragments(items, cut).value) == Some(t.acc.slots)
  {
    hide TakeItems, Heard, Fragments, Accumulate, InRange;
    TakeItemsAccumulates(s.acc, items, 0, cut);
    TakeItemsText(s.acc, items, 0, cut);
  }

  lemma {:induction false} TakeItemsText(acc: Acc, items: seq<Json>, n: nat, cut: Truncate)
    requires |acc.slots| == MAX_TOOL_CALLS && n <= ITEMS_PER_EVENT
    ensures TakeItems(acc, items, n, cut).0.content == acc.content
    decreases |items|
  {
    hide FragmentOf, Apply;
    if items != [] && n < ITEMS_PER_EVENT && FragmentOf(items[0], cut).Some? {
      var f := FragmentOf(items[0], cut).value;
      var slot := Apply(acc.slots[f.index], f);
      if slot.Some? {
        TakeItemsText(acc.(slots := acc.slots[f.index := slot.value], hwm := Max(acc.hwm, f.index + 1)), items[1..],
            n + 1, cut);
      }
    }
  }

  lemma Snoc(datas: seq<bytes>, data: bytes, cut: Truncate)
    ensures TextOf(datas + [data]) == TextOf(datas) + EventText(data)
    ensures FragmentsOf(datas + [data], cut)
      == var front, last := FragmentsOf(datas, cut), EventFragments(data, cut);
         if front.None? || last.None? then None else Some(front.value + last.value)
  {
    hide EventText, EventFragments;
    assert (datas + [data])[..|datas + [data]| - 1] == datas;
  }

  /** An event that is taken is held with the ones before. */
  lemma HandleEventHolds(s: Stream, datas: seq<bytes>, data: bytes, cut: Truncate)
    requires Receiving(s) && !s.finished && Holds(s.acc, datas, cut)
    ensures |s.acc.slots| == MAX_TOOL_CALLS
    ensures HandleEvent(s, data, cut).1 ==> Holds(HandleEvent(s, data, cut).0.acc, datas + [data], cut)
  {
    hide StreamInv, TakeChoice, FireDone, FireError, ParseDocument, ChildObject, ChildItems, TakeUsage, Accumulate,
         Fragments, Text, TextOf, FragmentsOf, EmptySlots;
    HandleEventKeeps(s, data, cut);
    SlotsOf(s);
    var (u, go) := HandleEvent(s, data, cut);
    if go {
      SoundSlots(u);
      Snoc(datas, data, cut);
      var doc := ParseDocument(data, EVENT_CAP).value;
      var choices := ChildItems(doc, KEY_CHOICES);
      var before := FragmentsOf(datas, cut).value;
      if choices.Some? && choices.value != [] {
        TakeChoiceAdds(s, choices.value[0], cut);
        if EventFragments(data, cut).Some? && InRange(EventFragments(data, cut).value) {
          AccumulateConcat(EmptySlots(MAX_TOOL_CALLS), before, EventFragments(data, cut).value);
        }
        NoneAccumulate(s.acc.slots);
      }
      assert before + [] == before && s.acc.content + [] == s.acc.content;
    }
  }

  lemma NoneAccumulate(slots: seq<Slot>)
    requires |slots| == MAX_TOOL_CALLS
    ensures Accumulate(slots, []) == Some(slots)
  {
  }

  lemma SoundSlots(s: Stream)
    requires Receiving(s)
    ensures SlotsSound(s.acc)
  {
  }

  // ----- whole streams -----

  /** The events of a chunk that are taken. */
  function Taken(s: Stream, datas: seq<bytes>, cut: Truncate): seq<bytes>
    requires |s.acc.slots| == MAX_TOOL_CALLS
    decreases |datas|
  {
    hide HandleEvent;
    if datas == [] then []
    else
      var (t, ok) := HandleEvent(s, datas[0], cut);
      if ok then [datas[0]] + Taken(t, datas[1..], cut) else []
  }

  /** The events taken in the current attempt. */
  function Attempt(s: Stream, before: seq<bytes>, e: StreamEvent, cut: Truncate): seq<bytes>
    requires |s.acc.slots| == MAX_TOOL_CALLS
  {
    match e
    case RetryDue(_) => []
    case ChunkRead(datas, _) => if s.mode == Sse && !s.finished then before + Taken(s, datas, cut) else before
    case _ => before
  }

  /** An unfinished stream holds its attempt's events; a reported message is the one that they make. */
  predicate Built(s: Stream, datas: seq<bytes>, cut: Truncate) {
    && (!s.finished ==> Holds(s.acc, datas, cut))
    && (s.trace.dones != [] ==>
          && FragmentsOf(datas, cut).Some? && AllFold(FragmentsOf(datas, cut).value)
          && AllNamed(FragmentsOf(datas, cut).value)
          && s.trace.dones == [Message(TextOf(datas), FragmentsOf(datas, cut).value)])
  }

  lemma FireDoneBuilds(s: Stream, datas: seq<bytes>, cut: Truncate)
    requires StreamInv(s) && Built(s, datas, cut)
    ensures Built(FireDone(s), datas, cut) && Built(FireError(s), datas, cut)
  {
    hide Holds, Assemble, Message, FragmentsOf, TextOf, AllFold, AllNamed, CallsComplete, Reports, SlotsSound;
    if !s.finished {
      HeldMessage(s.acc, datas, cut);
      assert s.trace.dones + [Assemble(s.acc)] == [Assemble(s.acc)];
    }
  }

  /** An event that is not taken is the end of the stream or an error. */
  lemma NotTaken(s: Stream, data: bytes, cut: Truncate)
    requires |s.acc.slots| == MAX_TOOL_CALLS && !s.finished && !HandleEvent(s, data, cut).1
    ensures data == TEXT_DONE ==> HandleEvent(s, data, cut).0 == FireDone(s)
    ensures data != TEXT_DONE ==>
      HandleEvent(s, data, cut).0.finished && HandleEvent(s, data, cut).0.trace.dones == s.trace.dones
  {
    hide ParseDocument, ChildObject, ChildItems, TakeUsage, TakeChoice, FireDone;
    if data != TEXT_DONE && ParseDocument(data, EVENT_CAP).Some? {
      var choices := ChildItems(ParseDocument(data, EVENT_CAP).value, KEY_CHOICES);
      if choices.Some? && choices.value != [] { ChoiceNotTaken(s, choices.value[0], cut); }
    }
  }

  lemma ChoiceNotTaken(s: Stream, choice: Json, cut: Truncate)
    requires |s.acc.slots| == MAX_TOOL_CALLS && !s.finished
    ensures var (t, ok) := TakeChoice(s, choice, cut); t.trace.dones == s.trace.dones && (!ok ==> t.finished)
  {
    hide ChildObject, ChildItems, TakeText, TakeCalls, TakeReason, Text;
    var delta := ChildObject(choice, KEY_DELTA);
    if delta.Some? {
      TextNotTaken(s, Text(delta.value, KEY_CONTENT));
      var t := TakeText(s, Text(delta.value, KEY_CONTENT)).0;
      var items := ChildItems(delta.value, KEY_CALLS);
      if items.Some? {
        CallsNotTaken(t, items.value, cut);
        ReasonAddsNothing(TakeCalls(t, items.value, cut).0, choice);
      } else {
        ReasonAddsNothing(t, choice);
      }
    } else {
      ReasonAddsNothing(s, choice);
    }
  }

  lemma TextNotTaken(s: Stream, text: bytes)
    requires !s.finished
    ensures var (t, ok) := TakeText(s, text); t.trace.dones == s.trace.dones && (!ok <==> t.finished)
  {
  }

  lemma CallsNotTaken(s: Stream, items: seq<Json>, cut: Truncate)
    requires |s.acc.slots| == MAX_TOOL_CALLS
    ensures var (t, ok) := TakeCalls(s, items, cut); t.trace.dones == s.trace.dones && (!ok ==> t.finished)
  {
    hide TakeItems, Heard;
  }

  lemma {:induction false} TakeEventsBuild(s: Stream, before: seq<bytes>, datas: seq<bytes>, cut: Truncate)
    requires Receiving(s) && !s.finished && Built(s, before, cut)
    ensures |s.acc.slots| == MAX_TOOL_CALLS
    ensures Built(TakeEvents(s, datas, cut).0, before + Taken(s, datas, cut), cut)
    decreases |datas|
  {
    hide StreamInv, HandleEvent, Holds, Message, FragmentsOf, TextOf, AllFold, AllNamed;
    SlotsOf(s);
    NoDones(s);
    if datas == [] {
      assert before + [] == before;
    } else {
      var (t, ok) := HandleEvent(s, datas[0], cut);
      HandleEventKeeps(s, datas[0], cut);
      HandleEventHolds(s, before, datas[0], cut);
      SlotsOf(t);
      if ok {
        NoDones(t);
        TakeEventsBuild(t, before + [datas[0]], datas[1..], cut);
        assert (before + [datas[0]]) + Taken(t, datas[1..], cut) == before + ([datas[0]] + Taken(t, datas[1..], cut));
      } else {
        NotTaken(s, datas[0], cut);
        FireDoneBuilds(s, before, cut);
        assert before + [] == before;
      }
    }
  }

  lemma NoDones(s: Stream)
    requires Receiving(s) && !s.finished
    ensures s.trace.dones == []
  {
  }

  lemma ChunkBuilds(s: Stream, before: seq<bytes>, datas: seq<bytes>, overflow: bool, cut: Truncate)
    requires Receiving(s) && Built(s, before, cut)
    ensures |s.acc.slots| == MAX_TOOL_CALLS
    ensures Built(OnChunk(s, datas, overflow, cut), Attempt(s, before, ChunkRead(datas, overflow), cut), cut)
  {
    hide TakeEvents, Taken, Holds, Message, FragmentsOf, TextOf, AllFold, AllNamed, StreamInv;
    SlotsOf(s);
    if s.mode == Sse {
      if s.finished {
        FinishedIgnores(s, datas, overflow, cut);
      } else {
        TakeEventsBuild(s, before, datas, cut);
        TakeEventsKeep(s, datas, cut);
        FireDoneBuilds(TakeEvents(s, datas, cut).0, before + Taken(s, datas, cut), cut);
      }
    }
  }

  lemma CompleteBuilds(s: Stream, before: seq<bytes>, c: Completion, cut: Truncate)
    requires Receiving(s) && Built(s, before, cut)
    ensures Built(OnComplete(s, c), before, cut)
  {
    hide Holds, Message, FragmentsOf, TextOf, AllFold, AllNamed, Reports, SlotsSound, Delay, Retryable, FireDone;
    FireDoneBuilds(s, before, cut);
    DoneFrame(s);
  }

  lemma EmptyHolds(cut: Truncate)
    ensures Holds(EmptyAcc(), [], cut)
  {
    EmptyIsSound();
    assert EmptyAcc().slots == EmptySlots(MAX_TOOL_CALLS);
  }

  lemma StepBuilds(s: Stream, before: seq<bytes>, e: StreamEvent, cut: Truncate)
    requires StreamInv(s) && CanHappen(s, e) && Built(s, before, cut)
    ensures Built(NextStream(s, e, cut), Attempt(s, before, e, cut), cut)
  {
    hide Holds, Message, FragmentsOf, TextOf, AllFold, AllNamed, Reports, SlotsSound, OnComplete, OnChunk, Attempt,
        EmptyAcc;
    AttemptOf(s, before, e, cut);
    match e
    case StatusLine(status, eventStream) =>
    case ChunkRead(datas, overflow) => ChunkBuilds(s, before, datas, overflow, cut);
    case TransferEnds(c) => CompleteBuilds(s, before, c, cut);
    case RetryDue(issued) => EmptyHolds(cut);
    case CancelCalled =>
  }

  lemma AttemptOf(s: Stream, before: seq<bytes>, e: StreamEvent, cut: Truncate)
    requires StreamInv(s)
    ensures |s.acc.slots| == MAX_TOOL_CALLS
    ensures e.RetryDue? ==> Attempt(s, before, e, cut) == []
    ensures !e.RetryDue? && !e.ChunkRead? ==> Attempt(s, before, e, cut) == before
  {
  }

  /** The events that the last attempt of a run has taken. */
  function LastAttempt(s: Stream, before: seq<bytes>, events: seq<StreamEvent>, cut: Truncate): seq<bytes>
    requires StreamInv(s) && PossibleStream(s, events, cut)
    decreases |events|
  {
    if events == [] then before
    else
      StreamStepKeeps(s, events[0], cut);
      LastAttempt(NextStream(s, events[0], cut), Attempt(s, before, events[0], cut), events[1..], cut)
  }

  lemma {:induction false} RunBuilds(s: Stream, before: seq<bytes>, events: seq<StreamEvent>, cut: Truncate)
    requires StreamInv(s) && PossibleStream(s, events, cut) && Built(s, before, cut)
    ensures Built(AfterEvents(s, events, cut), LastAttempt(s, before, events, cut), cut)
    decreases |events|
  {
    hide NextStream, Built, Attempt, CanHappen;
    if events != [] {
      StreamStepKeeps(s, events[0], cut);
      StepBuilds(s, before, events[0], cut);
      SlotsCount(s);
      RunBuilds(NextStream(s, events[0], cut), Attempt(s, before, events[0], cut), events[1..], cut);
    }
  }

  lemma SlotsCount(s: Stream)
    requires StreamInv(s)
    ensures |s.acc.slots| == MAX_TOOL_CALLS
  {
  }

  /**
   Over every run of a stream, with whatever retries, statuses, chunks and cancels: a message that is reported has the
   texts of the events of its attempt, concatenated, and per index the fold of that index's fragments.
   */
  lemma ReportedMessage(issued: bool, events: seq<StreamEvent>, cut: Truncate)
    requires PossibleStream(FirstStream(issued), events, cut)
    requires AfterEvents(FirstStream(issued), events, cut).trace.dones != []
    ensures var datas := LastAttempt(FirstStream(issued), [], events, cut);
      && FragmentsOf(datas, cut).Some? && AllFold(FragmentsOf(datas, cut).value)
      && AllNamed(FragmentsOf(datas, cut).value)
      && AfterEvents(FirstStream(issued), events, cut).trace.dones
         == [Message(TextOf(datas), FragmentsOf(datas, cut).value)]
  {
    hide Message, FragmentsOf, TextOf, AllFold, AllNamed, Holds, AfterEvents, LastAttempt, PossibleStream, EmptyAcc;
    EmptyHolds(cut);
    RunBuilds(FirstStream(issued), [], events, cut);
  }

  /**
   Two runs whose attempts carry the same text, and per index the same fragments in order, report the same message.
   */
  lemma InterleavingGivesOneMessage(i1: bool, a: seq<StreamEvent>, i2: bool, b: seq<StreamEvent>, cut: Truncate)
    requires PossibleStream(FirstStream(i1), a, cut) && PossibleStream(FirstStream(i2), b, cut)
    requires AfterEvents(FirstStream(i1), a, cut).trace.dones != []
        && AfterEvents(FirstStream(i2), b, cut).trace.dones != []
    requires var x, y := LastAttempt(FirstStream(i1), [], a, cut), LastAttempt(FirstStream(i2), [], b, cut);
      && TextOf(x) == TextOf(y) && FragmentsOf(x, cut).Some? && FragmentsOf(y, cut).Some?
      && forall i :: 0 <= i < MAX_TOOL_CALLS ==>
        Only(FragmentsOf(x, cut).value, i) == Only(FragmentsOf(y, cut).value, i)
    ensures AfterEvents(FirstStream(i1), a, cut).trace.dones == AfterEvents(FirstStream(i2), b, cut).trace.dones
  {
    hide FragmentsOf, TextOf, Only, Folded, Assemble, AfterEvents, LastAttempt, PossibleStream, FirstStream;
    ReportedMessage(i1, a, cut);
    ReportedMessage(i2, b, cut);
    var x, y := LastAttempt(FirstStream(i1), [], a, cut), LastAttempt(FirstStream(i2), [], b, cut);
    assert FoldedSlots(FragmentsOf(x, cut).value) == FoldedSlots(FragmentsOf(y, cut).value);
  }
}
