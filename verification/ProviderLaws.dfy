/** What a stream promises its owner: one result, one release, no text twice, calls put together in any interleaving. */
module ProviderLaws {
  import opened Bytes
  import opened CJsonSpec
  import opened SessionSpec
  import opened AgentSpec
  import opened ProviderSpec

  // ----- tool calls, one index at a time -----

  /** The fragments of one call. */
  function Only(fs: seq<Fragment>, i: nat): seq<Fragment> {
    if fs == [] then []
    else Only(fs[..|fs| - 1], i) + (if fs[|fs| - 1].index == i then [fs[|fs| - 1]] else [])
  }

  /** One call's fragments put together, whatever happens to the others. */
  function Folded(slot: Slot, fs: seq<Fragment>): Option<Slot> {
    if fs == [] then Some(slot)
    else match Folded(slot, fs[..|fs| - 1])
      case None => None
      case Some(s) => Apply(s, fs[|fs| - 1])
  }

  predicate InRange(fs: seq<Fragment>) { forall f :: f in fs ==> f.index < MAX_TOOL_CALLS }

  lemma OnlySnoc(fs: seq<Fragment>, f: Fragment, i: nat)
    ensures Only(fs + [f], i) == Only(fs, i) + if f.index == i then [f] else []
  {
    assert (fs + [f])[..|fs + [f]| - 1] == fs;
  }

  lemma FoldedSnoc(slot: Slot, fs: seq<Fragment>, f: Fragment)
    ensures Folded(slot, fs + [f]) == match Folded(slot, fs) { case None => None case Some(s) => Apply(s, f) }
  {
    hide Apply;
    assert (fs + [f])[..|fs + [f]| - 1] == fs;
  }

  /** Accumulation succeeds exactly when every call's own fragments fold, and then gives each slot its fold. */
  lemma {:induction false} AccumulateIsPerIndex(slots: seq<Slot>, fs: seq<Fragment>)
    requires |slots| == MAX_TOOL_CALLS && InRange(fs)
    ensures Accumulate(slots, fs).Some? <==> forall i :: 0 <= i < MAX_TOOL_CALLS ==> Folded(slots[i], Only(fs, i)).Some?
    ensures Accumulate(slots, fs).Some? ==>
              && |Accumulate(slots, fs).value| == MAX_TOOL_CALLS
              && forall i :: 0 <= i < MAX_TOOL_CALLS ==>
                  Folded(slots[i], Only(fs, i)) == Some(Accumulate(slots, fs).value[i])
    decreases |fs|
  {
    hide Apply;
    if fs != [] {
      var front, f := fs[..|fs| - 1], fs[|fs| - 1];
      assert fs == front + [f];
      AccumulateIsPerIndex(slots, front);
      forall i | 0 <= i < MAX_TOOL_CALLS
        ensures Folded(slots[i], Only(fs, i))
                == if f.index != i then Folded(slots[i], Only(front, i))
                   else match Folded(slots[i], Only(front, i)) { case None => None case Some(s) => Apply(s, f) }
      {
        OnlySnoc(front, f, i);
        if f.index == i {
          FoldedSnoc(slots[i], Only(front, i), f);
        } else {
          assert Only(front, i) + [] == Only(front, i);
        }
      }
      assert forall i :: 0 <= i < MAX_TOOL_CALLS && i != f.index ==>
          Folded(slots[i], Only(fs, i)) == Folded(slots[i], Only(front, i));
      assert f.index < MAX_TOOL_CALLS;
    }
  }

  /** The first non-empty text of a list. */
  function FirstText(texts: seq<bytes>): bytes {
    if texts == [] then []
    else if FirstText(texts[..|texts| - 1]) != [] then FirstText(texts[..|texts| - 1])
    else texts[|texts| - 1]
  }

  function Ids(fs: seq<Fragment>): seq<bytes> { seq(|fs|, i requires 0 <= i < |fs| => fs[i].id) }
  function Names(fs: seq<Fragment>): seq<bytes> { seq(|fs|, i requires 0 <= i < |fs| => fs[i].name) }
  function Args(fs: seq<Fragment>): seq<bytes> { seq(|fs|, i requires 0 <= i < |fs| => fs[i].args) }

  /** A call's id and name are the first that some fragment carries; its arguments are all of theirs, in order. */
  lemma {:induction false} FoldedMeans(fs: seq<Fragment>)
    requires Folded(EMPTY_SLOT, fs).Some?
    ensures var s := Folded(EMPTY_SLOT, fs).value;
            && s.present == (fs != [])
            && s.id == FirstText(Ids(fs)) && s.name == FirstText(Names(fs)) && s.args == Joined(Args(fs))
    decreases |fs|
  {
    hide FirstText, Joined, Ids, Names, Args;
    if fs == [] {
      NoTexts();
    } else {
      var front, f := fs[..|fs| - 1], fs[|fs| - 1];
      FoldedMeans(front);
      TextsSnoc(fs);
      SnocText(Ids(front), f.id);
      SnocText(Names(front), f.name);
      SnocText(Args(front), f.args);
    }
  }

  lemma NoTexts()
    ensures FirstText(Ids([])) == [] && FirstText(Names([])) == [] && Joined(Args([])) == []
  {
  }

  lemma TextsSnoc(fs: seq<Fragment>)
    requires fs != []
    ensures var front, f := fs[..|fs| - 1], fs[|fs| - 1];
            Ids(fs) == Ids(front) + [f.id] && Names(fs) == Names(front) + [f.name] && Args(fs) == Args(front) + [f.args]
  {
  }

  lemma SnocText(texts: seq<bytes>, t: bytes)
    ensures FirstText(texts + [t]) == if FirstText(texts) != [] then FirstText(texts) else t
    ensures Joined(texts + [t]) == Joined(texts) + t
  {
    assert (texts + [t])[..|texts + [t]| - 1] == texts;
  }

  /** Two interleavings of the same fragments per call add up to the same calls, or are both refused. */
  lemma InterleavingIsInvisible(slots: seq<Slot>, a: seq<Fragment>, b: seq<Fragment>)
    requires |slots| == MAX_TOOL_CALLS && InRange(a) && InRange(b)
    requires forall i :: 0 <= i < MAX_TOOL_CALLS ==> Only(a, i) == Only(b, i)
    ensures Accumulate(slots, a) == Accumulate(slots, b)
  {
    hide Accumulate, Folded, Only;
    AccumulateIsPerIndex(slots, a);
    AccumulateIsPerIndex(slots, b);
    if Accumulate(slots, a).Some? {
      forall i | 0 <= i < MAX_TOOL_CALLS ensures Accumulate(slots, a).value[i] == Accumulate(slots, b).value[i] {
        assert Folded(slots[i], Only(a, i)) == Folded(slots[i], Only(b, i));
      }
      assert Accumulate(slots, a).value == Accumulate(slots, b).value;
    }
  }

  lemma {:induction false} AccumulateConcat(slots: seq<Slot>, a: seq<Fragment>, b: seq<Fragment>)
    requires |slots| == MAX_TOOL_CALLS && InRange(a) && InRange(b)
    ensures InRange(a + b)
    ensures Accumulate(slots, a + b)
            == match Accumulate(slots, a)
               case None => None
               case Some(s) => if |s| == MAX_TOOL_CALLS then Accumulate(s, b) else None
    decreases |b|
  {
    hide Apply;
    AccumulateIsPerIndex(slots, a);
    if b == [] {
      assert a + b == a;
    } else {
      var front := b[..|b| - 1];
      AccumulateConcat(slots, a, front);
      assert (a + b)[..|a + b| - 1] == a + front;
    }
  }

  /** The fragments of an event's items. */
  function Fragments(items: seq<Json>, cut: Truncate): Option<seq<Fragment>> {
    if items == [] then Some([])
    else
      var first, rest := FragmentOf(items[0], cut), Fragments(items[1..], cut);
      if first.None? || rest.None? then None else Some([first.value] + rest.value)
  }

  /**
   accumulate_tool_calls accepts an event's items exactly when there are not too many, all are well formed and they
   fit.
   */
  lemma {:induction false} TakeItemsAccumulates(acc: Acc, items: seq<Json>, n: nat, cut: Truncate)
    requires |acc.slots| == MAX_TOOL_CALLS && n <= ITEMS_PER_EVENT
    ensures Fragments(items, cut).Some? ==> InRange(Fragments(items, cut).value)
    ensures var (r, ok) := TakeItems(acc, items, n, cut);
            && (ok <==> n + |items| <= ITEMS_PER_EVENT && Fragments(items, cut).Some?
                        && Accumulate(acc.slots, Fragments(items, cut).value).Some?)
            && (ok ==> Accumulate(acc.slots, Fragments(items, cut).value) == Some(r.slots))
    decreases |items|
  {
    hide FragmentOf, Apply;
    if items != [] && FragmentOf(items[0], cut).Some? {
      var f := FragmentOf(items[0], cut).value;
      var slot := Apply(acc.slots[f.index], f);
      OneFragment(acc.slots, f);
      if n < ITEMS_PER_EVENT && slot.Some? {
        TakeItemsAccumulates(acc.(slots := acc.slots[f.index := slot.value], hwm := Max(acc.hwm, f.index + 1)),
            items[1..], n + 1, cut);
      } else {
        TakeItemsAccumulates(acc, items[1..], ITEMS_PER_EVENT, cut);
      }
      if Fragments(items[1..], cut).Some? { AccumulateConcat(acc.slots, [f], Fragments(items[1..], cut).value); }
    }
  }

  lemma OneFragment(slots: seq<Slot>, f: Fragment)
    requires |slots| == MAX_TOOL_CALLS && f.index < MAX_TOOL_CALLS
    ensures InRange([f])
    ensures Accumulate(slots, [f])
            == match Apply(slots[f.index], f) { case None => None case Some(slot) => Some(slots[f.index := slot]) }
  {
    hide Apply;
    assert [f][..0] == [];
  }

  // ----- the assembled message -----

  /** Slots that no fragment has named lie behind the high-water mark. */
  predicate SlotsSound(acc: Acc) {
    && |acc.slots| == MAX_TOOL_CALLS && acc.hwm <= MAX_TOOL_CALLS
    && forall i :: acc.hwm <= i < MAX_TOOL_CALLS ==> !acc.slots[i].present
  }

  /** The high-water mark does not matter: what is assembled are the present calls, by index. */
  lemma {:induction false} EntriesBeyond(slots: seq<Slot>, i: nat, hwm: nat)
    requires i <= hwm <= |slots| && forall j :: hwm <= j < |slots| ==> !slots[j].present
    ensures Entries(slots, i, hwm) == Entries(slots, i, |slots|)
    decreases |slots| - i
  {
    hide CallEntry;
    if i < hwm {
      EntriesBeyond(slots, i + 1, hwm);
    } else {
      NoEntries(slots, i);
    }
  }

  lemma {:induction false} NoEntries(slots: seq<Slot>, i: nat)
    requires forall j :: i <= j < |slots| ==> !slots[j].present
    ensures Entries(slots, i, |slots|) == []
    decreases |slots| - i
  {
    if i < |slots| { NoEntries(slots, i + 1); }
  }

  /** So two interleavings give one message. */
  lemma SameSlotsSameMessage(a: Acc, b: Acc)
    requires SlotsSound(a) && SlotsSound(b) && a.slots == b.slots && a.content == b.content
    ensures Assemble(a) == Assemble(b)
  {
    hide Entries;
    EntriesBeyond(a.slots, 0, a.hwm);
    EntriesBeyond(b.slots, 0, b.hwm);
  }

  /** The message's role, text and calls, as its readers look them up. */
  lemma AssembledReads(acc: Acc)
    ensures IsAssistant(Assemble(acc))
    ensures Child(Assemble(acc), KEY_CONTENT) == Some(if acc.content == [] then Null else String(acc.content))
    ensures CallsOf(Assemble(acc)) == Entries(acc.slots, 0, acc.hwm)
  {
    hide Entries;
    var ms := Assemble(acc).members;
    assert Lookup(ms, KEY_ROLE) == Some(String(ROLE_ASSISTANT));
    assert Lookup(ms[1..], KEY_CONTENT) == Some(ms[1].value);
    assert Lookup(ms, KEY_CONTENT) == Some(ms[1].value);
    if |ms| == 3 {
      assert Lookup(ms[2..], KEY_CALLS) == Some(ms[2].value);
      assert Lookup(ms[1..], KEY_CALLS) == Some(ms[2].value);
    } else {
      assert Lookup(ms[2..], KEY_CALLS) == None;
      assert Lookup(ms[1..], KEY_CALLS) == None;
    }
  }

  /** Every call of a message that is reported has a non-empty id. */
  lemma {:induction false} EntriesHaveIds(slots: seq<Slot>, i: nat, hwm: nat)
    requires forall j :: i <= j < hwm && j < |slots| && slots[j].present ==> slots[j].id != []
    ensures forall k :: 0 <= k < |Entries(slots, i, hwm)| ==>
              CallId(Entries(slots, i, hwm)[k]).Some? && CallId(Entries(slots, i, hwm)[k]).value != []
    decreases hwm - i
  {
    hide CallEntry, CallId;
    if i < hwm && i < |slots| {
      EntriesHaveIds(slots, i + 1, hwm);
      if slots[i].present { EntryId(slots[i]); }
    }
  }

  lemma EntryId(slot: Slot)
    ensures CallId(CallEntry(slot)) == Some(slot.id)
  {
  }

  // ----- the life of a stream -----

  /** The message has the text that was passed on, and complete calls. */
  predicate Reports(message: Json, text: bytes) {
    && IsAssistant(message)
    && Child(message, KEY_CONTENT) == Some(if text == [] then Null else String(text))
    && forall k :: 0 <= k < |CallsOf(message)| ==>
      CallId(CallsOf(message)[k]).Some? && CallId(CallsOf(message)[k]).value != []
  }

  /** What holds between callbacks. */
  predicate StreamInv(s: Stream) {
    && SlotsSound(s.acc)
    && |s.trace.dones| + s.trace.errors == (if s.finished then 1 else 0)
    && s.trace.destroys <= 1
    && (if s.trace.destroys == 1 then s.finished && !s.request && !s.timer else s.request != s.timer)
    && (s.timer ==> !s.finished && !s.delivered && s.attempt < MAX_ATTEMPTS)
    && 1 <= s.attempt <= MAX_ATTEMPTS
    && s.acc.content == s.trace.text
    && (!s.delivered ==> s.trace.text == [])
    && (s.trace.dones != [] ==> Reports(s.trace.dones[0], s.trace.text))
    && s.attempt - 1 <= |s.trace.delays| <= s.attempt
    && (s.timer ==> |s.trace.delays| == s.attempt) && (s.request ==> |s.trace.delays| == s.attempt - 1)
    && forall i :: 0 <= i < |s.trace.delays| ==> s.trace.delays[i] <= 60000
  }

  /** A stream whose transfer is under way. */
  predicate Receiving(s: Stream) { StreamInv(s) && s.request }

  lemma FireErrorKeeps(s: Stream)
    requires Receiving(s)
    ensures Receiving(FireError(s)) && FireError(s).finished
  {
    hide Reports, SlotsSound;
  }

  lemma FireDoneKeeps(s: Stream)
    requires Receiving(s)
    ensures Receiving(FireDone(s)) && FireDone(s).finished
  {
    hide Assemble, Entries;
    if !s.finished && CallsComplete(s.acc) {
      AssembledReads(s.acc);
      EntriesHaveIds(s.acc.slots, 0, s.acc.hwm);
    }
  }

  lemma {:induction false} TakeItemsKeeps(acc: Acc, items: seq<Json>, n: nat, cut: Truncate)
    requires SlotsSound(acc) && n <= ITEMS_PER_EVENT
    ensures var r := TakeItems(acc, items, n, cut).0; SlotsSound(r) && r.content == acc.content
    decreases |items|
  {
    hide FragmentOf;
    if items != [] && n < ITEMS_PER_EVENT && FragmentOf(items[0], cut).Some? {
      var f := FragmentOf(items[0], cut).value;
      var slot := Apply(acc.slots[f.index], f);
      if slot.Some? {
        TakeItemsKeeps(acc.(slots := acc.slots[f.index := slot.value], hwm := Max(acc.hwm, f.index + 1)), items[1..],
            n + 1, cut);
      }
    }
  }

  lemma TakeTextKeeps(s: Stream, text: bytes)
    requires Receiving(s) && !s.finished
    ensures var (t, ok) := TakeText(s, text); Receiving(t) && (ok <==> !t.finished)
  {
    hide Reports;
    FireErrorKeeps(s);
  }

  lemma TakeCallsKeeps(s: Stream, items: seq<Json>, cut: Truncate)
    requires Receiving(s) && !s.finished
    ensures var (t, ok) := TakeCalls(s, items, cut); Receiving(t) && (ok <==> !t.finished)
  {
    hide Reports, SlotsSound, TakeItems, Heard;
    TakeItemsKeeps(s.acc, items, 0, cut);
  }

  lemma TakeReasonKeeps(s: Stream, choice: Json)
    requires Receiving(s)
    ensures Receiving(TakeReason(s, choice)) && TakeReason(s, choice).finished == s.finished
  {
    hide Reports, GetString;
  }

  lemma TakeChoiceKeeps(s: Stream, choice: Json, cut: Truncate)
    requires Receiving(s) && !s.finished
    ensures var (t, ok) := TakeChoice(s, choice, cut); Receiving(t) && (ok <==> !t.finished)
  {
    hide StreamInv, TakeText, TakeCalls, TakeReason, ChildObject, ChildItems, Text;
    SlotsOf(s);
    match ChildObject(choice, KEY_DELTA)
    case None => TakeReasonKeeps(s, choice);
    case Some(delta) =>
      TakeTextKeeps(s, Text(delta, KEY_CONTENT));
      var (t, ok) := TakeText(s, Text(delta, KEY_CONTENT));
      if ok {
        SlotsOf(t);
        match ChildItems(delta, KEY_CALLS)
        case None => TakeReasonKeeps(t, choice);
        case Some(items) =>
          TakeCallsKeeps(t, items, cut);
          TakeReasonKeeps(TakeCalls(t, items, cut).0, choice);
      }
  }

  lemma SlotsOf(s: Stream)
    requires Receiving(s)
    ensures |s.acc.slots| == MAX_TOOL_CALLS
  {
  }

  lemma HandleEventKeeps(s: Stream, data: bytes, cut: Truncate)
    requires Receiving(s)
    ensures var (t, ok) := HandleEvent(s, data, cut); Receiving(t) && (ok <==> !t.finished)
  {
    hide StreamInv, TakeChoice, FireDone, FireError, ParseDocument, ChildObject, ChildItems, TakeUsage;
    SlotsOf(s);
    FireErrorKeeps(s);
    FireDoneKeeps(s);
    if !s.finished && data != TEXT_DONE && ParseDocument(data, EVENT_CAP).Some? {
      var doc := ParseDocument(data, EVENT_CAP).value;
      var choices := ChildItems(doc, KEY_CHOICES);
      var taken := choices.Some? && choices.value != [];
      if taken { TakeChoiceKeeps(s, choices.value[0], cut); }
      var (t, ok) := if taken then TakeChoice(s, choices.value[0], cut) else (s, true);
      if ok { UsageKeeps(t, TakeUsage(t.acc.usage, doc, cut)); }
    }
  }

  lemma UsageKeeps(s: Stream, u: Usage)
    requires Receiving(s)
    ensures Receiving(s.(acc := s.acc.(usage := u)))
  {
    hide Reports;
  }

  lemma {:induction false} TakeEventsKeep(s: Stream, datas: seq<bytes>, cut: Truncate)
    requires Receiving(s) && !s.finished
    ensures |s.acc.slots| == MAX_TOOL_CALLS
    ensures var (t, ok) := TakeEvents(s, datas, cut); Receiving(t) && (ok <==> !t.finished)
    decreases |datas|
  {
    hide HandleEvent, StreamInv;
    SlotsOf(s);
    if datas != [] {
      HandleEventKeeps(s, datas[0], cut);
      var (t, ok) := HandleEvent(s, datas[0], cut);
      SlotsOf(t);
      if ok { TakeEventsKeep(t, datas[1..], cut); }
    }
  }

  /** A finished stream ignores what is still read. */
  lemma FinishedIgnores(s: Stream, datas: seq<bytes>, overflow: bool, cut: Truncate)
    requires s.finished && |s.acc.slots| == MAX_TOOL_CALLS
    ensures OnChunk(s, datas, overflow, cut) == s
  {
  }

  /** A retry comes no later than a minute, no earlier than half the backoff, and not before Retry-After allows. */
  lemma DelayBounds(attempt: nat, retryAfter: int, random: nat)
    ensures Delay(attempt, retryAfter, random) <= 60000
    ensures Min(Doubled(500, Min(attempt, 6)), 30000) / 2 <= Delay(attempt, retryAfter, random)
    ensures retryAfter >= 0 ==> Min(retryAfter, 60) * 1000 <= Delay(attempt, retryAfter, random)
    ensures retryAfter < 0 ==> Delay(attempt, retryAfter, random) <= 30000
  {
    hide Doubled;
    var base := Min(Doubled(500, Min(attempt, 6)), 30000);
    var r := random % (base / 2 + 1);
    assert 0 <= r <= base / 2;
  }

  lemma DestroyKeeps(s: Stream)
    requires StreamInv(s.(request := true, timer := false)) && s.trace.destroys == 0 && s.finished
    ensures StreamInv(Destroy(s))
  {
    hide Reports, SlotsSound;
  }

  lemma OnCompleteKeeps(s: Stream, c: Completion)
    requires Receiving(s)
    ensures StreamInv(OnComplete(s, c))
  {
    hide Reports, SlotsSound, Delay, FireDone, Retryable;
    var t := s.(request := false);
    FireErrorKeeps(s);
    FireDoneKeeps(s);
    DoneFrame(s);
    if s.finished {
      DestroyKeeps(s);
    } else {
      DestroyKeeps(FireError(s));
      DestroyKeeps(FireDone(s));
      DelayBounds(t.attempt, c.retryAfter, c.random);
    }
  }

  lemma DoneFrame(s: Stream)
    ensures FireDone(s.(request := false)) == FireDone(s).(request := false)
  {
    hide Assemble, CallsComplete;
  }

  lemma StartAttemptKeeps(s: Stream, issued: bool)
    requires StreamInv(s) && s.timer
    ensures StreamInv(StartAttempt(s.(timer := false), issued))
  {
    hide Reports, EmptyAcc;
    EmptyIsSound();
  }

  lemma EmptyIsSound()
    ensures SlotsSound(EmptyAcc()) && EmptyAcc().content == []
  {
  }

  /** Everything that can happen to a stream keeps its invariant. */
  lemma StreamStepKeeps(s: Stream, e: StreamEvent, cut: Truncate)
    requires StreamInv(s) && CanHappen(s, e)
    ensures StreamInv(NextStream(s, e, cut))
  {
    hide Reports, OnComplete, StartAttempt, TakeEvents;
    match e
    case StatusLine(status, eventStream) =>
    case ChunkRead(datas, overflow) =>
      if s.mode == Sse {
        if s.finished {
          FinishedTakes(s, datas, cut);
        } else {
          TakeEventsKeep(s, datas, cut);
        }
        FireErrorKeeps(TakeEvents(s, datas, cut).0);
      }
    case TransferEnds(c) => OnCompleteKeeps(s, c);
    case RetryDue(issued) => StartAttemptKeeps(s, issued);
    case CancelCalled =>
  }

  lemma FinishedTakes(s: Stream, datas: seq<bytes>, cut: Truncate)
    requires s.finished && |s.acc.slots| == MAX_TOOL_CALLS
    ensures TakeEvents(s, datas, cut).0 == s
  {
  }

  lemma FirstAttempt(issued: bool)
    ensures StreamInv(StartAttempt(NewStream(), issued))
  {
    hide EmptyAcc;
    EmptyIsSound();
  }

  /** A stream as openrouter_stream returns it. */
  function FirstStream(issued: bool): (s: Stream)
    ensures StreamInv(s)
  {
    FirstAttempt(issued);
    StartAttempt(NewStream(), issued)
  }

  predicate PossibleStream(s: Stream, events: seq<StreamEvent>, cut: Truncate)
    requires StreamInv(s)
    decreases |events|
  {
    events == []
    || (CanHappen(s, events[0])
        && (StreamStepKeeps(s, events[0], cut); PossibleStream(NextStream(s, events[0], cut), events[1..], cut)))
  }

  function AfterEvents(s: Stream, events: seq<StreamEvent>, cut: Truncate): Stream
    requires StreamInv(s) && PossibleStream(s, events, cut)
    decreases |events|
  {
    if events == [] then s
    else StreamStepKeeps(s, events[0], cut); AfterEvents(NextStream(s, events[0], cut), events[1..], cut)
  }

  /** What a stream's owner is promised at every point of a run. */
  predicate Promised(r: Stream) {
    && |r.trace.dones| + r.trace.errors == (if r.finished then 1 else 0)
    && r.trace.destroys <= 1 && (r.trace.destroys == 1 ==> r.finished && !r.request && !r.timer)
    && (r.trace.destroys == 0 ==> r.request != r.timer)
    && r.attempt <= MAX_ATTEMPTS && (r.timer ==> r.trace.text == [])
    && (r.trace.dones != [] ==> Reports(r.trace.dones[0], r.trace.text))
    && forall i :: 0 <= i < |r.trace.delays| ==> r.trace.delays[i] <= 60000
  }

  lemma SoundIsPromised(s: Stream)
    requires StreamInv(s)
    ensures Promised(s)
  {
    hide Reports, SlotsSound;
  }

  /**
   Over every run of a stream: it reports at most one result and is released at most once, reporting first; while
   it is not released exactly one of a transfer and a retry timer is pending; it makes at most five attempts,
   a further one only if nothing was delivered; and a reported message holds exactly the text passed on.
   */
  lemma EveryStreamKeeps(issued: bool, events: seq<StreamEvent>, cut: Truncate)
    requires PossibleStream(FirstStream(issued), events, cut)
    ensures Promised(AfterEvents(FirstStream(issued), events, cut))
  {
    hide FirstStream, Promised, StreamInv;
    RunKeeps(FirstStream(issued), events, cut);
    SoundIsPromised(AfterEvents(FirstStream(issued), events, cut));
  }

  lemma {:induction false} RunKeeps(s: Stream, events: seq<StreamEvent>, cut: Truncate)
    requires StreamInv(s) && PossibleStream(s, events, cut)
    ensures StreamInv(AfterEvents(s, events, cut))
    decreases |events|
  {
    hide NextStream, Reports;
    if events != [] {
      StreamStepKeeps(s, events[0], cut);
      RunKeeps(NextStream(s, events[0], cut), events[1..], cut);
    }
  }

  /** Each end of a transfer, and each retry, leaves less to come: the stream is released after at most nine of them. */
  function StreamRank(s: Stream): int {
    if s.trace.destroys > 0 then 0 else 2 * (MAX_ATTEMPTS - s.attempt) + if s.request then 1 else 0
  }

  lemma StreamEnds(s: Stream, e: StreamEvent, cut: Truncate)
    requires StreamInv(s) && CanHappen(s, e)
    ensures 0 <= StreamRank(s) <= 2 * MAX_ATTEMPTS - 1
    ensures e.TransferEnds? || e.RetryDue? ==> StreamRank(NextStream(s, e, cut)) < StreamRank(s)
    ensures e.StatusLine? || e.ChunkRead? ==> StreamRank(NextStream(s, e, cut)) == StreamRank(s)
    ensures StreamRank(s) == 0 <==> s.trace.destroys == 1
  {
    hide Reports, SlotsSound, TakeEvents, Delay, Retryable, Assemble, CallsComplete;
    match e
    case StatusLine(status, eventStream) =>
    case ChunkRead(datas, overflow) =>
    case TransferEnds(c) =>
    case RetryDue(issued) =>
    case CancelCalled =>
  }
}
