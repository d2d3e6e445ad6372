/**
 What each callback of a stream does and when a stream ends how, said of the bytes of the events, the status lines and
 the completions: results, errors, retries and releases are all due, and none is missed.
 */
module ProviderEndings {
  import opened Bytes
  import opened CJsonSpec
  import opened SessionSpec
  import opened AgentSpec
  import opened ProviderSpec
  import opened ProviderLaws
  import opened ProviderMessage
  import opened ProviderCalls

  // ----- a call's items -----

  /** The items' arguments fit behind the slot's, and the id and the name that they bring, if any, have their size. */
  predicate Fits(slot: Slot, mine: seq<Json>) {
    mine == [] || (
      && |slot.args| + |Joined(ArgsIn(mine))| <= 262144
      && (slot.id == [] ==> |FirstText(IdsIn(mine))| < 64)
      && (slot.name == [] ==> |FirstText(NamesIn(mine))| < 128))
  }

  /** What the items make of the slot. */
  predicate Grows(slot: Slot, mine: seq<Json>, after: Slot) {
    && after.present == (slot.present || mine != [])
    && after.id == (if slot.id != [] then slot.id else FirstText(IdsIn(mine)))
    && after.name == (if slot.name != [] then slot.name else FirstText(NamesIn(mine)))
    && after.args == slot.args + Joined(ArgsIn(mine))
  }

  /** At most 64 items, each with an index below 16, and all of them fit. */
  predicate Accepts(slots: seq<Slot>, items: seq<Json>, cut: Truncate)
    requires |slots| == MAX_TOOL_CALLS
  {
    && |items| <= 64
    && (forall k :: 0 <= k < |items| ==> IndexedIn(items[k], cut))
    && forall i :: 0 <= i < 16 ==> Fits(slots[i], Mine(items, i, cut))
  }

  predicate IndexedIn(item: Json, cut: Truncate) {
    var i := IndexIn(item, cut);
    i.Some? && 0 <= i.value < 16
  }

  predicate AllGrow(slots: seq<Slot>, items: seq<Json>, after: seq<Slot>, cut: Truncate)
    requires |slots| == MAX_TOOL_CALLS
  {
    |after| == MAX_TOOL_CALLS && forall i :: 0 <= i < 16 ==> Grows(slots[i], Mine(items, i, cut), after[i])
  }

  // ----- an event -----

  /** The stream goes on as it was, with an error reported. */
  predicate Errors(s: Stream, t: Stream) { t == s.(finished := true, trace := s.trace.(errors := s.trace.errors + 1)) }

  /** A result if every call that was named has an id and a name, and else an error. */
  predicate Reported(s: Stream, t: Stream)
    requires |s.acc.slots| == MAX_TOOL_CALLS
  {
    if forall i :: 0 <= i < 16 && s.acc.slots[i].present ==> s.acc.slots[i].id != [] && s.acc.slots[i].name != [] then
      && |t.trace.dones| == |s.trace.dones| + 1
      && t == s.(finished := true, trace := s.trace.(dones := s.trace.dones + [t.trace.dones[|s.trace.dones|]]))
    else Errors(s, t)
  }

  /** The JSON document of an event; None when it is none or larger than 1 MiB. */
  function DocOf(data: bytes): Option<Json> { ParseDocument(data, 1048576) }

  function EventTextIn(data: bytes): bytes { TextIn(Get(DeltaOf(data), Ascii("content"))) }

  function EventItems(data: bytes): seq<Json> { ItemsIn(Get(DeltaOf(data), Ascii("tool_calls"))) }

  function ReasonIn(doc: Json): Json { Get(First(Get(doc, Ascii("choices"))), Ascii("finish_reason")) }

  /** The latched reason: the event's, of which 31 bytes are kept, or the one before. */
  function ReasonAfter(before: bytes, v: Json): bytes {
    if !v.String? then before else if |v.s| <= 31 then v.s else v.s[..31]
  }

  function CountAfter(before: int, v: Json, cut: Truncate): int {
    match v
    case Integer(i) => i
    case Real(t) => cut(t)
    case _ => before
  }

  function UsageAfter(before: Usage, doc: Json, cut: Truncate): Usage {
    var u := Get(doc, Ascii("usage"));
    Usage(CountAfter(before.prompt, Get(u, Ascii("prompt_tokens")), cut),
          CountAfter(before.completion, Get(u, Ascii("completion_tokens")), cut),
          CountAfter(before.total, Get(u, Ascii("total_tokens")), cut))
  }

  /** The event is taken in: its text, its items, its reason and its usage. */
  predicate Taken(s: Stream, data: bytes, t: Stream, cut: Truncate)
    requires |s.acc.slots| == MAX_TOOL_CALLS
  {
    && DocOf(data).Some? && SameLife(s, t) && t.finished == s.finished && t.status == s.status
    && t.wrongType == s.wrongType && t.trace.dones == s.trace.dones && t.trace.errors == s.trace.errors
    && t.trace.text == s.trace.text + EventTextIn(data) && t.acc.content == s.acc.content + EventTextIn(data)
    && AllGrow(s.acc.slots, EventItems(data), t.acc.slots, cut)
    && t.acc.reason == ReasonAfter(s.acc.reason, ReasonIn(DocOf(data).value))
    && t.acc.usage == UsageAfter(s.acc.usage, DocOf(data).value, cut)
    && t.delivered == (s.delivered || EventTextIn(data) != [] || EventItems(data) != [])
  }

  /** The event's items are refused, once its text has been passed on. */
  predicate ItemsRefused(s: Stream, data: bytes, t: Stream) {
    && SameLife(s, t) && t.finished && t.trace.dones == s.trace.dones && t.trace.errors == s.trace.errors + 1
    && t.trace.text == s.trace.text + EventTextIn(data)
  }

  /** What one event does to a stream that has not finished, and whether reading goes on behind it. */
  predicate EventDoes(s: Stream, data: bytes, t: Stream, on: bool, cut: Truncate)
    requires |s.acc.slots| == MAX_TOOL_CALLS
  {
    if s.finished then t == s && !on
    else if data == Ascii("[DONE]") then Reported(s, t) && !on
    else if DocOf(data).None? || Get(DocOf(data).value, Ascii("error")).Object? then Errors(s, t) && !on
    else if EventTextIn(data) != [] && |s.acc.content| + |EventTextIn(data)| > 1048576 then Errors(s, t) && !on
    else if !Accepts(s.acc.slots, EventItems(data), cut) then ItemsRefused(s, data, t) && !on
    else Taken(s, data, t, cut) && on
  }

  // ----- proofs: items -----

  lemma IndexedIff(item: Json, cut: Truncate)
    ensures FragmentOf(item, cut).Some? <==> IndexedIn(item, cut)
  {
    hide Ascii, Lookup;
    Keys();
  }

  lemma {:induction false} AllIndexedIff(items: seq<Json>, cut: Truncate)
    ensures Fragments(items, cut).Some? <==> forall k :: 0 <= k < |items| ==> IndexedIn(items[k], cut)
    ensures Fragments(items, cut).Some? ==> |Fragments(items, cut).value| == |items|
  {
    hide FragmentOf, IndexedIn;
    if items != [] {
      IndexedIff(items[0], cut);
      AllIndexedIff(items[1..], cut);
      assert forall k :: 0 < k < |items| ==> items[k] == items[1..][k - 1];
      assert (forall k :: 0 <= k < |items| ==> IndexedIn(items[k], cut)) ==>
          forall k :: 0 <= k < |items[1..]| ==> IndexedIn(items[1..][k], cut);
    }
  }

  /** What holds of texts: they fit and are put together. */
  predicate FitsAs(slot: Slot, ids: seq<bytes>, names: seq<bytes>, args: seq<bytes>) {
    && |slot.args| + |Joined(args)| <= ARGS_CAP
    && (slot.id == [] ==> |FirstText(ids)| < ID_CAP) && (slot.name == [] ==> |FirstText(names)| < NAME_CAP)
  }

  predicate GrowsAs(slot: Slot, ids: seq<bytes>, names: seq<bytes>, args: seq<bytes>, after: Slot) {
    && after.id == (if slot.id != [] then slot.id else FirstText(ids))
    && after.name == (if slot.name != [] then slot.name else FirstText(names))
    && after.args == slot.args + Joined(args)
  }

  /** Fragments fold exactly when they fit, into what they make of the slot. */
  lemma {:induction false} FoldsIff(slot: Slot, fs: seq<Fragment>)
    ensures Folded(slot, fs).Some? <==> fs == [] || FitsAs(slot, Ids(fs), Names(fs), Args(fs))
    ensures Folded(slot, fs).Some? ==>
      && GrowsAs(slot, Ids(fs), Names(fs), Args(fs), Folded(slot, fs).value)
      && Folded(slot, fs).value.present == (slot.present || fs != [])
    decreases |fs|
  {
    hide FirstText, Joined, Ids, Names, Args;
    if fs == [] {
      NoTexts();
    } else {
      var front, f := fs[..|fs| - 1], fs[|fs| - 1];
      FoldsIff(slot, front);
      if front == [] { NoTexts(); }
      TextsSnoc(fs);
      SnocText(Ids(front), f.id);
      SnocText(Names(front), f.name);
      SnocText(Args(front), f.args);
    }
  }

  /** The items of one index. */
  lemma SlotGrows(slots: seq<Slot>, fs: seq<Fragment>, items: seq<Json>, i: nat, cut: Truncate)
    requires |slots| == MAX_TOOL_CALLS && i < MAX_TOOL_CALLS && Same(fs, items, cut)
    ensures Folded(slots[i], Only(fs, i)).Some? <==> Fits(slots[i], Mine(items, i, cut))
    ensures Folded(slots[i], Only(fs, i)).Some? ==>
      Grows(slots[i], Mine(items, i, cut), Folded(slots[i], Only(fs, i)).value)
  {
    hide Folded, Only, Mine, FirstText, Joined, IndexIn, Ids, Names, Args, IdsIn, NamesIn, ArgsIn;
    MineAreOnly(fs, items, i, cut);
    SameTexts(Only(fs, i), Mine(items, i, cut), cut);
    FoldsIff(slots[i], Only(fs, i));
  }

  /** accumulate_tool_calls. */
  lemma ItemsTaken(acc: Acc, items: seq<Json>, cut: Truncate)
    requires |acc.slots| == MAX_TOOL_CALLS
    ensures var (r, ok) := TakeItems(acc, items, 0, cut);
      (ok <==> Accepts(acc.slots, items, cut)) && (ok ==> AllGrow(acc.slots, items, r.slots, cut))
  {
    hide TakeItems, Accumulate, Fragments, Folded, Only, Fits, Grows, Mine, IndexedIn;
    TakeItemsAccumulates(acc, items, 0, cut);
    AllIndexedIff(items, cut);
    if Fragments(items, cut).Some? {
      var fs := Fragments(items, cut).value;
      ItemsAreFragments(items, cut);
      AccumulateIsPerIndex(acc.slots, fs);
      forall i: nat | i < 16
        ensures Folded(acc.slots[i], Only(fs, i)).Some? <==> Fits(acc.slots[i], Mine(items, i, cut))
        ensures Folded(acc.slots[i], Only(fs, i)).Some? ==>
          Grows(acc.slots[i], Mine(items, i, cut), Folded(acc.slots[i], Only(fs, i)).value)
      {
        SlotGrows(acc.slots, fs, items, i, cut);
      }
    }
  }

  // ----- proofs: an event -----

  lemma CompleteIff(acc: Acc)
    requires SlotsSound(acc)
    ensures CallsComplete(acc) <==>
      forall i :: 0 <= i < 16 && acc.slots[i].present ==> acc.slots[i].id != [] && acc.slots[i].name != []
  {
  }

  lemma DoneReports(s: Stream)
    requires SlotsSound(s.acc) && !s.finished
    ensures Reported(s, FireDone(s))
  {
    hide Assemble, CallsComplete, SlotsSound;
    CompleteIff(s.acc);
  }

  lemma ChoiceIs(doc: Json)
    ensures var choices := ChildItems(doc, KEY_CHOICES);
      First(Get(doc, Ascii("choices"))) == if choices.Some? && choices.value != [] then choices.value[0] else Null
  {
    hide Ascii, Lookup;
    Keys();
  }

  lemma DeltaIs(choice: Json)
    ensures ChildObject(choice, KEY_DELTA)
         == if Get(choice, Ascii("delta")).Object? then Some(Get(choice, Ascii("delta"))) else None
  {
    hide Ascii, Lookup;
    Keys();
  }

  lemma ContentIs(delta: Json)
    ensures Text(delta, KEY_CONTENT) == TextIn(Get(delta, Ascii("content")))
    ensures var items := ChildItems(delta, KEY_CALLS);
      ItemsIn(Get(delta, Ascii("tool_calls"))) == if items.Some? then items.value else []
  {
    hide Ascii, Lookup;
    Keys();
  }

  lemma ReasonIs(choice: Json)
    ensures GetString(choice, KEY_REASON)
         == match Get(choice, Ascii("finish_reason")) { case String(r) => Some(r) case _ => None }
  {
    hide Lookup;
    assert KEY_REASON == Ascii("finish_reason");
  }

  lemma UsageKeys()
    ensures [117, 115, 97, 103, 101] == Ascii("usage")
    ensures [112, 114, 111, 109, 112, 116, 95, 116, 111, 107, 101, 110, 115] == Ascii("prompt_tokens")
    ensures [99, 111, 109, 112, 108, 101, 116, 105, 111, 110, 95, 116, 111, 107, 101, 110, 115]
         == Ascii("completion_tokens")
    ensures [116, 111, 116, 97, 108, 95, 116, 111, 107, 101, 110, 115] == Ascii("total_tokens")
  {
  }

  lemma CountIs(o: Json, key: bytes, before: int, cut: Truncate)
    ensures var n := GetInt(o, key, cut); (if n.Some? then n.value else before) == CountAfter(before, Get(o, key), cut)
  {
    hide Lookup;
  }

  lemma NoCounts(v: Json, key: bytes, before: int, cut: Truncate)
    requires !v.Object?
    ensures CountAfter(before, Get(v, key), cut) == before
  {
  }

  lemma UsageIs(u: Usage, doc: Json, cut: Truncate)
    ensures TakeUsage(u, doc, cut) == UsageAfter(u, doc, cut)
  {
    hide Ascii, Lookup, GetInt, CountAfter;
    UsageKeys();
    var o := Get(doc, Ascii("usage"));
    if o.Object? {
      CountIs(o, Ascii("prompt_tokens"), u.prompt, cut);
      CountIs(o, Ascii("completion_tokens"), u.completion, cut);
      CountIs(o, Ascii("total_tokens"), u.total, cut);
    } else {
      NoCounts(o, Ascii("prompt_tokens"), u.prompt, cut);
      NoCounts(o, Ascii("completion_tokens"), u.completion, cut);
      NoCounts(o, Ascii("total_tokens"), u.total, cut);
    }
  }

  /** What a choice does, said of what is found in it. */
  predicate ChoiceDoes(s: Stream, text: bytes, items: seq<Json>, reason: Json, t: Stream, on: bool, cut: Truncate)
    requires |s.acc.slots| == MAX_TOOL_CALLS
  {
    if text != [] && |s.acc.content| + |text| > 1048576 then Errors(s, t) && !on
    else if !Accepts(s.acc.slots, items, cut) then
      && SameLife(s, t) && t.finished && t.trace.dones == s.trace.dones && t.trace.errors == s.trace.errors + 1
      && t.trace.text == s.trace.text + text && !on
    else
      && on && SameLife(s, t) && t.finished == s.finished && t.status == s.status && t.wrongType == s.wrongType
      && t.trace.dones == s.trace.dones && t.trace.errors == s.trace.errors
      && t.trace.text == s.trace.text + text && t.acc.content == s.acc.content + text
      && AllGrow(s.acc.slots, items, t.acc.slots, cut) && t.acc.reason == ReasonAfter(s.acc.reason, reason)
      && t.acc.usage == s.acc.usage && t.delivered == (s.delivered || text != [] || items != [])
  }

  lemma NothingGrows(slots: seq<Slot>, cut: Truncate)
    requires |slots| == MAX_TOOL_CALLS
    ensures Accepts(slots, [], cut) && AllGrow(slots, [], slots, cut)
  {
    forall i: nat | i < 16 ensures Fits(slots[i], Mine([], i, cut)) && Grows(slots[i], Mine([], i, cut), slots[i]) {
      NoneMine(slots[i], i, cut);
    }
  }

  lemma NoneMine(slot: Slot, i: nat, cut: Truncate)
    ensures Fits(slot, Mine([], i, cut)) && Grows(slot, Mine([], i, cut), slot)
  {
    assert IdsIn([]) == [] && NamesIn([]) == [] && ArgsIn([]) == [];
    assert slot.args + [] == slot.args;
  }

  lemma {:induction false} TakeItemsFrame(acc: Acc, items: seq<Json>, n: nat, cut: Truncate)
    requires |acc.slots| == MAX_TOOL_CALLS && n <= ITEMS_PER_EVENT
    ensures var r := TakeItems(acc, items, n, cut).0;
      r.content == acc.content && r.reason == acc.reason && r.usage == acc.usage
    decreases |items|
  {
    hide FragmentOf, Apply;
    if items != [] && n < ITEMS_PER_EVENT && FragmentOf(items[0], cut).Some? {
      var f := FragmentOf(items[0], cut).value;
      var slot := Apply(acc.slots[f.index], f);
      if slot.Some? {
        TakeItemsFrame(acc.(slots := acc.slots[f.index := slot.value], hwm := Max(acc.hwm, f.index + 1)), items[1..],
            n + 1, cut);
      }
    }
  }

  /** The tool-call part. */
  lemma CallsTaken(s: Stream, items: seq<Json>, cut: Truncate)
    requires |s.acc.slots| == MAX_TOOL_CALLS && !s.finished
    ensures var (t, ok) := TakeCalls(s, items, cut);
      if Accepts(s.acc.slots, items, cut) then
        && ok && AllGrow(s.acc.slots, items, t.acc.slots, cut)
        && t == s.(acc := s.acc.(slots := t.acc.slots, hwm := t.acc.hwm), delivered := s.delivered || items != [])
      else
        !ok && t.finished && t.trace == s.trace.(errors := s.trace.errors + 1)
  {
    hide TakeItems, Accepts, AllGrow, FragmentOf;
    ItemsTaken(s.acc, items, cut);
    TakeItemsFrame(s.acc, items, 0, cut);
    if items != [] && Accepts(s.acc.slots, items, cut) { FirstHeard(s.acc.slots, items, cut); }
  }

  lemma FirstHeard(slots: seq<Slot>, items: seq<Json>, cut: Truncate)
    requires |slots| == MAX_TOOL_CALLS && Accepts(slots, items, cut) && items != []
    ensures Heard(items, cut)
  {
    hide IndexedIn, FragmentOf;
    IndexedIff(items[0], cut);
  }

  lemma ReasonTaken(s: Stream, choice: Json)
    ensures TakeReason(s, choice)
         == s.(acc := s.acc.(reason := ReasonAfter(s.acc.reason, Get(choice, Ascii("finish_reason")))))
  {
    hide Ascii, GetString, Get;
    ReasonIs(choice);
  }

  /** A choice without tool calls, or the part of one before them. */
  lemma TextTaken(s: Stream, text: bytes)
    requires !s.finished
    ensures var (t, ok) := TakeText(s, text);
      if text != [] && |s.acc.content| + |text| > 1048576 then Errors(s, t) && !ok
      else
        && ok && t == s.(acc := s.acc.(content := s.acc.content + text), delivered := s.delivered || text != [],
          trace := s.trace.(text := s.trace.text + text))
  {
    assert s.acc.content + [] == s.acc.content && s.trace.text + [] == s.trace.text;
  }

  lemma TextRefused(s: Stream, text: bytes, items: seq<Json>, reason: Json, cut: Truncate)
    requires |s.acc.slots| == MAX_TOOL_CALLS && !s.finished && !TakeText(s, text).1
    ensures ChoiceDoes(s, text, items, reason, TakeText(s, text).0, false, cut)
  {
    hide Accepts, AllGrow, ReasonAfter;
    TextTaken(s, text);
  }

  lemma TextOnly(s: Stream, text: bytes, choice: Json, cut: Truncate)
    requires |s.acc.slots| == MAX_TOOL_CALLS && !s.finished && TakeText(s, text).1
    ensures ChoiceDoes(s, text, [], Get(choice, Ascii("finish_reason")), TakeReason(TakeText(s, text).0, choice), true,
      cut)
  {
    hide Ascii, Get, TakeText, TakeReason, Accepts, AllGrow, ReasonAfter;
    TextTaken(s, text);
    NothingGrows(s.acc.slots, cut);
    ReasonTaken(TakeText(s, text).0, choice);
  }

  lemma TextAndCalls(s: Stream, text: bytes, items: seq<Json>, choice: Json, cut: Truncate)
    requires |s.acc.slots| == MAX_TOOL_CALLS && !s.finished && TakeText(s, text).1
    ensures var (c, taken) := TakeCalls(TakeText(s, text).0, items, cut);
      ChoiceDoes(s, text, items, Get(choice, Ascii("finish_reason")), if taken then TakeReason(c, choice) else c, taken,
        cut)
  {
    hide Ascii, Get, TakeText, TakeCalls, TakeReason, Accepts, AllGrow, ReasonAfter;
    TextTaken(s, text);
    CallsTaken(TakeText(s, text).0, items, cut);
    ReasonTaken(TakeCalls(TakeText(s, text).0, items, cut).0, choice);
  }

  lemma ReasonOnly(s: Stream, choice: Json, cut: Truncate)
    requires |s.acc.slots| == MAX_TOOL_CALLS && !s.finished
    ensures ChoiceDoes(s, [], [], Get(choice, Ascii("finish_reason")), TakeReason(s, choice), true, cut)
  {
    hide Ascii, Get, TakeReason, Accepts, AllGrow, ReasonAfter;
    assert s.acc.content + [] == s.acc.content && s.trace.text + [] == s.trace.text;
    NothingGrows(s.acc.slots, cut);
    ReasonTaken(s, choice);
  }

  lemma ChoiceTaken(s: Stream, choice: Json, cut: Truncate)
    requires |s.acc.slots| == MAX_TOOL_CALLS && !s.finished
    ensures var delta := Get(choice, Ascii("delta"));
      var (t, ok) := TakeChoice(s, choice, cut);
      ChoiceDoes(s, TextIn(Get(delta, Ascii("content"))), ItemsIn(Get(delta, Ascii("tool_calls"))),
        Get(choice, Ascii("finish_reason")), t, ok, cut)
  {
    hide Ascii, Get, TakeText, TakeCalls, TakeReason, Text, ChildObject, ChildItems, ReasonAfter, TextIn, ItemsIn,
      ChoiceDoes;
    var delta := Get(choice, Ascii("delta"));
    DeltaIs(choice);
    if delta.Object? {
      var text := TextIn(Get(delta, Ascii("content")));
      var items := ItemsIn(Get(delta, Ascii("tool_calls")));
      ContentIs(delta);
      if !TakeText(s, text).1 {
        TextRefused(s, text, items, Get(choice, Ascii("finish_reason")), cut);
      } else if ChildItems(delta, KEY_CALLS).None? {
        TextOnly(s, text, choice, cut);
      } else {
        TextAndCalls(s, text, items, choice, cut);
      }
    } else {
      NothingIn(delta);
      ReasonOnly(s, choice, cut);
    }
  }

  lemma NothingIn(delta: Json)
    requires !delta.Object?
    ensures TextIn(Get(delta, Ascii("content"))) == [] && ItemsIn(Get(delta, Ascii("tool_calls"))) == []
    ensures Get(delta, Ascii("delta")) == Null && Get(delta, Ascii("finish_reason")) == Null
  {
  }

  lemma ErrorIs(doc: Json)
    ensures ChildObject(doc, KEY_ERROR).Some? <==> Get(doc, Ascii("error")).Object?
    ensures TEXT_DONE == Ascii("[DONE]")
  {
    hide Lookup;
    assert KEY_ERROR == Ascii("error");
  }

  /** A document that is taken in, from what its choice does. */
  lemma DocTaken(s: Stream, data: bytes, cut: Truncate)
    requires |s.acc.slots| == MAX_TOOL_CALLS && !s.finished && DocOf(data).Some?
    ensures var doc := DocOf(data).value;
      var choices := ChildItems(doc, KEY_CHOICES);
      var (t, ok) := if choices.Some? && choices.value != [] then TakeChoice(s, choices.value[0], cut) else (s, true);
      ChoiceDoes(s, EventTextIn(data), EventItems(data), ReasonIn(doc), t, ok, cut)
  {
    hide Ascii, Get, TakeChoice, ChildItems, ChoiceDoes, TextIn, ItemsIn, First, ParseDocument;
    var doc := DocOf(data).value;
    ChoiceIs(doc);
    var choices := ChildItems(doc, KEY_CHOICES);
    if choices.Some? && choices.value != [] {
      ChoiceTaken(s, choices.value[0], cut);
    } else {
      NothingChosen(s, cut);
    }
  }

  lemma NothingChosen(s: Stream, cut: Truncate)
    requires |s.acc.slots| == MAX_TOOL_CALLS && !s.finished
    ensures var delta := Get(Null, Ascii("delta"));
      ChoiceDoes(s, TextIn(Get(delta, Ascii("content"))), ItemsIn(Get(delta, Ascii("tool_calls"))),
        Get(Null, Ascii("finish_reason")), s, true, cut)
  {
    hide Accepts, AllGrow;
    NothingIn(Null);
    NothingGrows(s.acc.slots, cut);
    assert s.acc.content + [] == s.acc.content && s.trace.text + [] == s.trace.text;
  }

  lemma SlotCount(acc: Acc)
    requires SlotsSound(acc)
    ensures |acc.slots| == MAX_TOOL_CALLS
  {
  }

  /** openrouter_handle_event. */
  lemma EventIsDone(s: Stream, data: bytes, cut: Truncate)
    requires SlotsSound(s.acc)
    ensures EventDoes(s, data, HandleEvent(s, data, cut).0, HandleEvent(s, data, cut).1, cut)
  {
    hide Ascii, Get, TakeChoice, ChildItems, ChildObject, FireDone, ParseDocument, Reported, Accepts, AllGrow,
        TakeUsage,
      EventTextIn, EventItems, ReasonIn, UsageAfter, SlotsSound, ReasonAfter;
    SlotCount(s.acc);
    ErrorIs(Null);
    if s.finished {
    } else if data == TEXT_DONE {
      DoneReports(s);
    } else if DocOf(data).Some? {
      var doc := DocOf(data).value;
      ErrorIs(doc);
      DocTaken(s, data, cut);
      UsageIs(s.acc.usage, doc, cut);
    }
  }

  // ----- callbacks -----

  /** The events are read one after the other until one ends the reading. */
  ghost predicate EventsDo(s: Stream, datas: seq<bytes>, t: Stream, on: bool, cut: Truncate)
    requires |s.acc.slots| == MAX_TOOL_CALLS
    decreases |datas|
  {
    if datas == [] then t == s && on
    else exists m: Stream, go: bool ::
      && |m.acc.slots| == MAX_TOOL_CALLS && EventDoes(s, datas[0], m, go, cut)
      && if go then EventsDo(m, datas[1..], t, on, cut) else t == m && !on
  }

  /** An event stream's chunk: its events, and an error if a cap is passed and nothing was reported before. */
  ghost predicate ChunkDoes(s: Stream, datas: seq<bytes>, overflow: bool, t: Stream, cut: Truncate)
    requires |s.acc.slots| == MAX_TOOL_CALLS
  {
    if s.mode != Sse then t == s
    else exists m: Stream, on: bool ::
      && EventsDo(s, datas, m, on, cut)
      && if m.finished || (on && !overflow) then t == m else Errors(m, t)
  }

  /** A status of 200 with an event stream is read as one; everything else is an error body. */
  predicate StatusDoes(s: Stream, status: int, eventStream: bool, t: Stream) {
    if status == 200 && eventStream then t == s.(status := 200, mode := Sse)
    else t == s.(status := status, mode := ErrorBody, wrongType := s.wrongType || status == 200)
  }

  /** Statuses that are worth another try: the last one seen, outside an event stream; or curl's verdict. */
  predicate WorthARetry(s: Stream, c: Completion) {
    var status := if c.status != 0 then c.status else s.status;
    || (!c.ok && c.retryableCode)
    || (s.mode != Sse && (status == 408 || status == 429 || status == 500 || 502 <= status <= 504))
  }

  /**
   The milliseconds before the next attempt: 1, 2, 4 or 8 seconds, of which half is left to chance, or Retry-After.
   */
  predicate Waits(attempt: nat, c: Completion, delay: nat) {
    var base := if attempt == 1 then 1000 else if attempt == 2 then 2000 else if attempt == 3 then 4000 else 8000;
    var jittered := base / 2 + c.random % (base / 2 + 1);
    var asked := if c.retryAfter > 60 then 60000 else c.retryAfter * 1000;
    delay == if asked > jittered then asked else jittered
  }

  /** The stream is given up for good: its transfer and its timer are gone, and its owner may forget it. */
  predicate Released(s: Stream, t: Stream) {
    t == s.(request := false, timer := false, trace := s.trace.(destroys := s.trace.destroys + 1))
  }

  /**
   The end of a transfer.  What has reported is released; a canceled stream reports an error; an event stream that ends
   well behind a reason reports its result; what is worth a retry, has shown nothing and has an attempt left is tried
   again; everything else is an error.
   */
  ghost predicate CompletionDoes(s: Stream, c: Completion, t: Stream)
    requires |s.acc.slots| == MAX_TOOL_CALLS
  {
    if s.finished then Released(s, t)
    else if s.canceled then exists m: Stream :: Errors(s, m) && Released(m, t)
    else if s.mode == Sse && c.ok then
      exists m: Stream :: Released(m, t) && if s.acc.reason != [] && c.cleanEof then Reported(s, m) else Errors(s, m)
    else if WorthARetry(s, c) && !s.delivered && s.attempt < 5 && c.timerStarts then
      exists d :: Waits(s.attempt, c, d)
        && t == s.(request := false, timer := true, trace := s.trace.(delays := s.trace.delays + [d]))
    else exists m: Stream :: Errors(s, m) && Released(m, t)
  }

  /** Another attempt: everything but what was delivered starts afresh. */
  ghost predicate RetryDoes(s: Stream, issued: bool, t: Stream) {
    exists m: Stream ::
      && m == s.(attempt := s.attempt + 1, mode := Undecided, wrongType := false, status := 0, acc := m.acc,
        timer := false, request := issued)
      && m.acc.content == [] && m.acc.reason == [] && m.acc.usage == Usage(0, 0, 0) && m.acc.hwm == 0
      && |m.acc.slots| == 16 && (forall i :: 0 <= i < 16 ==> m.acc.slots[i] == Slot(false, [], [], []))
      && if issued then t == m else exists f: Stream :: Errors(m, f) && Released(f, t)
  }

  /** A cancel: of a pending transfer, which then ends; or of a pending retry. */
  ghost predicate CancelDoes(s: Stream, t: Stream) {
    if s.finished || s.canceled then t == s
    else if s.request then t == s.(canceled := true)
    else exists m: Stream :: Errors(s.(canceled := true), m) && Released(m, t)
  }

  ghost predicate Does(s: Stream, e: StreamEvent, t: Stream, cut: Truncate)
    requires |s.acc.slots| == MAX_TOOL_CALLS
  {
    match e
    case StatusLine(status, eventStream) => StatusDoes(s, status, eventStream, t)
    case ChunkRead(datas, overflow) => ChunkDoes(s, datas, overflow, t, cut)
    case TransferEnds(c) => CompletionDoes(s, c, t)
    case RetryDue(issued) => RetryDoes(s, issued, t)
    case CancelCalled => CancelDoes(s, t)
  }

  // ----- proofs: callbacks -----

  lemma {:induction false} EventsAreDone(s: Stream, datas: seq<bytes>, cut: Truncate)
    requires Receiving(s)
    ensures |s.acc.slots| == MAX_TOOL_CALLS
    ensures EventsDo(s, datas, TakeEvents(s, datas, cut).0, TakeEvents(s, datas, cut).1, cut)
    ensures Receiving(TakeEvents(s, datas, cut).0)
    ensures !TakeEvents(s, datas, cut).1 ==> TakeEvents(s, datas, cut).0.finished
    decreases |datas|
  {
    hide HandleEvent, EventDoes, StreamInv, SlotsSound;
    SoundSlots(s);
    if datas != [] {
      var (m, go) := HandleEvent(s, datas[0], cut);
      EventIsDone(s, datas[0], cut);
      HandleEventKeeps(s, datas[0], cut);
      SoundSlots(m);
      if go { EventsAreDone(m, datas[1..], cut); }
      assert EventDoes(s, datas[0], m, go, cut);
    }
  }

  lemma SoundSlots(s: Stream)
    requires StreamInv(s)
    ensures SlotsSound(s.acc) && |s.acc.slots| == MAX_TOOL_CALLS
  {
  }

  lemma ChunkIsDone(s: Stream, datas: seq<bytes>, overflow: bool, cut: Truncate)
    requires Receiving(s)
    ensures |s.acc.slots| == MAX_TOOL_CALLS && ChunkDoes(s, datas, overflow, OnChunk(s, datas, overflow, cut), cut)
  {
    hide TakeEvents, EventsDo, StreamInv;
    SoundSlots(s);
    EventsAreDone(s, datas, cut);
  }

  lemma DelayIs(attempt: nat, c: Completion)
    requires 1 <= attempt < 5
    ensures Waits(attempt, c, Delay(attempt, c.retryAfter, c.random))
  {
    assert Doubled(500, 1) == 1000;
    assert Doubled(500, 2) == 2000;
    assert Doubled(500, 3) == 4000;
    assert Doubled(500, 4) == 8000;
  }

  /** With an error or a result, and released. */
  lemma ErrorReleased(s: Stream)
    requires !s.finished
    ensures exists m: Stream :: Errors(s, m) && Released(m, Destroy(FireError(s.(request := false))))
  {
    assert Errors(s, FireError(s)) && Released(FireError(s), Destroy(FireError(s.(request := false))));
  }

  lemma ResultReleased(s: Stream)
    requires !s.finished && SlotsSound(s.acc)
    ensures |s.acc.slots| == MAX_TOOL_CALLS
    ensures exists m: Stream :: Reported(s, m) && Released(m, Destroy(FireDone(s.(request := false))))
  {
    hide SlotsSound, FireDone, Reported;
    SlotCount(s.acc);
    DoneReports(s);
    DoneFrame(s);
    assert Reported(s, FireDone(s)) && Released(FireDone(s), Destroy(FireDone(s.(request := false))));
  }

  lemma RetryableIff(s: Stream, c: Completion)
    ensures Retryable(s.(request := false), c) <==> WorthARetry(s, c)
  {
  }

  lemma CompletionIsDone(s: Stream, c: Completion)
    requires Receiving(s)
    ensures |s.acc.slots| == MAX_TOOL_CALLS && CompletionDoes(s, c, OnComplete(s, c))
  {
    hide SlotsSound, Reports, FireDone, FireError, Delay, Waits, Reported, Retryable, WorthARetry, Errors, Released,
        Destroy;
    SoundSlots(s);
    RetryableIff(s, c);
    if s.finished {
      assert Released(s, Destroy(s.(request := false))) by { DestroyedIs(s); }
    } else {
      ErrorReleased(s);
      ResultReleased(s);
      if s.attempt < 5 { DelayIs(s.attempt, c); }
    }
  }

  lemma DestroyedIs(s: Stream)
    ensures Released(s, Destroy(s.(request := false)))
  {
  }

  lemma RetryIsDone(s: Stream, issued: bool)
    requires !s.request && !s.finished
    ensures RetryDoes(s, issued, StartAttempt(s.(timer := false), issued))
  {
    hide EmptyAcc;
    var m := s.(attempt := s.attempt + 1, mode := Undecided, wrongType := false, status := 0, acc := EmptyAcc(),
      timer := false, request := issued);
    if !issued {
      assert Errors(m, FireError(m)) && Released(FireError(m), Destroy(FireError(m)));
    }
  }

  lemma CancelIsDone(s: Stream)
    requires StreamInv(s) && s.trace.destroys == 0
    ensures CancelDoes(s, CancelStream(s))
  {
    hide SlotsSound, Reports;
    var t := s.(canceled := true);
    if !s.finished { assert Errors(t, FireError(t)) && Released(FireError(t), Destroy(FireError(t))); }
  }

  lemma OneWakeup(s: Stream)
    requires StreamInv(s)
    ensures s.timer ==> !s.request && !s.finished
  {
  }

  lemma StepDoes(s: Stream, e: StreamEvent, cut: Truncate)
    requires StreamInv(s) && CanHappen(s, e)
    ensures |s.acc.slots| == MAX_TOOL_CALLS && Does(s, e, NextStream(s, e, cut), cut)
  {
    hide StreamInv, OnChunk, OnComplete, StartAttempt, CancelStream, ChunkDoes, CompletionDoes, RetryDoes, CancelDoes;
    SoundSlots(s);
    OneWakeup(s);
    match e
    case StatusLine(status, eventStream) =>
    case ChunkRead(datas, overflow) => ChunkIsDone(s, datas, overflow, cut);
    case TransferEnds(c) => CompletionIsDone(s, c);
    case RetryDue(issued) => RetryIsDone(s, issued);
    case CancelCalled => CancelIsDone(s);
  }

  // ----- runs -----

  lemma {:induction false} LastStep(s: Stream, events: seq<StreamEvent>, e: StreamEvent, cut: Truncate)
    requires StreamInv(s) && PossibleStream(s, events + [e], cut)
    ensures PossibleStream(s, events, cut)
    ensures var t := AfterEvents(s, events, cut);
      StreamInv(t) && CanHappen(t, e) && AfterEvents(s, events + [e], cut) == NextStream(t, e, cut)
    decreases |events|
  {
    hide NextStream, StreamInv, CanHappen;
    var all := events + [e];
    if events == [] {
      assert all[0] == e && all[1..] == [];
    } else {
      assert all[0] == events[0] && all[1..] == events[1..] + [e];
      SoundSlots(s);
      StreamStepKeeps(s, events[0], cut);
      LastStep(NextStream(s, events[0], cut), events[1..], e, cut);
    }
  }

  /** A stream as it is handed out: its first attempt is under way, or it has reported an error and is gone. */
  lemma FirstDoes(issued: bool)
    ensures exists none: Stream ::
      && none.attempt == 0 && !none.delivered && !none.finished && !none.canceled && !none.request
      && none.trace == Trace([], [], 0, 0, []) && RetryDoes(none, issued, FirstStream(issued))
  {
    hide StartAttempt, RetryDoes, EmptyAcc;
    var none := NewStream().(timer := true);
    RetryIsDone(none, issued);
    assert none.(timer := false) == NewStream();
  }

  /** Whatever has happened to a stream, whatever happens next does what is due and no more. */
  lemma EveryStreamDoes(issued: bool, events: seq<StreamEvent>, e: StreamEvent, cut: Truncate)
    requires PossibleStream(FirstStream(issued), events + [e], cut)
    ensures PossibleStream(FirstStream(issued), events, cut)
    ensures |AfterEvents(FirstStream(issued), events, cut).acc.slots| == MAX_TOOL_CALLS
    ensures Does(AfterEvents(FirstStream(issued), events, cut), e,
        AfterEvents(FirstStream(issued), events + [e], cut), cut)
  {
    hide FirstStream, Does, StreamInv, NextStream, CanHappen;
    LastStep(FirstStream(issued), events, e, cut);
    StepDoes(AfterEvents(FirstStream(issued), events, cut), e, cut);
  }
}
