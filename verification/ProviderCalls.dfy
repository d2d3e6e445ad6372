/**
 What a reader finds in a reported message, said of the events alone: the text, and for each tool call its id, its
 function's name and its arguments.
 */
module ProviderCalls {
  import opened Bytes
  import opened CJsonSpec
  import opened SessionSpec
  import opened AgentSpec
  import opened ProviderSpec
  import opened ProviderLaws
  import opened ProviderMessage

  // ----- reading JSON -----

  /** The value of the first member with that key; null for none. */
  function Get(v: Json, key: bytes): Json {
    if !v.Object? then Null
    else match Lookup(v.members, key)
      case None => Null
      case Some(w) => w
  }

  function First(v: Json): Json { if v.Array? && v.items != [] then v.items[0] else Null }

  function ItemsIn(v: Json): seq<Json> { if v.Array? then v.items else [] }

  function TextIn(v: Json): bytes { if v.String? then v.s else [] }

  /** delta of an event: `choices[0].delta`. */
  function DeltaOf(data: bytes): Json {
    match ParseDocument(data, EVENT_CAP)
    case None => Null
    case Some(doc) => Get(First(Get(doc, Ascii("choices"))), Ascii("delta"))
  }

  /** The texts of the events, concatenated. */
  function Texts(datas: seq<bytes>): bytes {
    if datas == [] then [] else Texts(datas[..|datas| - 1]) + TextIn(Get(DeltaOf(datas[|datas| - 1]), Ascii("content")))
  }

  /** The items of the events' `tool_calls`, in order. */
  function Items(datas: seq<bytes>): seq<Json> {
    if datas == [] then []
    else Items(datas[..|datas| - 1]) + ItemsIn(Get(DeltaOf(datas[|datas| - 1]), Ascii("tool_calls")))
  }

  // ----- one call -----

  function IndexIn(item: Json, cut: Truncate): Option<int> {
    match Get(item, Ascii("index"))
    case Integer(i) => Some(i)
    case Real(t) => Some(cut(t))
    case _ => None
  }

  function IdIn(item: Json): bytes { TextIn(Get(item, Ascii("id"))) }

  function NameIn(item: Json): bytes { TextIn(Get(Get(item, Ascii("function")), Ascii("name"))) }

  function ArgumentsIn(item: Json): bytes { TextIn(Get(Get(item, Ascii("function")), Ascii("arguments"))) }

  /** The items of the call with this index, in order. */
  function Mine(items: seq<Json>, i: int, cut: Truncate): seq<Json> {
    if items == [] then []
    else
      Mine(items[..|items| - 1], i, cut)
      + if IndexIn(items[|items| - 1], cut) == Some(i) then [items[|items| - 1]] else []
  }

  function IdsIn(items: seq<Json>): seq<bytes> { seq(|items|, i requires 0 <= i < |items| => IdIn(items[i])) }

  function NamesIn(items: seq<Json>): seq<bytes> { seq(|items|, i requires 0 <= i < |items| => NameIn(items[i])) }

  function ArgsIn(items: seq<Json>): seq<bytes> { seq(|items|, i requires 0 <= i < |items| => ArgumentsIn(items[i])) }

  /** The indices from `i` on that some item names, ascending. */
  function Named(items: seq<Json>, i: nat, cut: Truncate): (ks: seq<nat>)
    ensures forall k :: 0 <= k < |ks| ==> i <= ks[k] < MAX_TOOL_CALLS && Mine(items, ks[k], cut) != []
    decreases MAX_TOOL_CALLS - i
  {
    if i >= MAX_TOOL_CALLS then []
    else (if Mine(items, i, cut) != [] then [i] else []) + Named(items, i + 1, cut)
  }

  /** The call, as its reader finds it: put together from these items. */
  predicate CallReads(call: Json, mine: seq<Json>) {
    && Get(call, Ascii("id")) == String(FirstText(IdsIn(mine))) && FirstText(IdsIn(mine)) != []
    && Get(call, Ascii("type")) == String(Ascii("function"))
    && var f := Get(call, Ascii("function"));
    && Get(f, Ascii("name")) == String(FirstText(NamesIn(mine))) && FirstText(NamesIn(mine)) != []
    && Get(f, Ascii("arguments")) == String(Joined(ArgsIn(mine)))
  }

  // ----- the keys -----

  lemma Keys()
    ensures KEY_CHOICES == Ascii("choices") && KEY_DELTA == Ascii("delta") && KEY_CONTENT == Ascii("content")
    ensures KEY_CALLS == Ascii("tool_calls") && KEY_INDEX == Ascii("index") && ProviderSpec.KEY_ID == Ascii("id")
    ensures TEXT_FUNCTION == Ascii("function") && KEY_NAME == Ascii("name") && KEY_ARGUMENTS == Ascii("arguments")
    ensures KEY_KIND == Ascii("type") && KEY_ROLE == Ascii("role") && ROLE_ASSISTANT == Ascii("assistant")
  {
  }

  // ----- items are fragments -----

  lemma ItemFragment(item: Json, cut: Truncate)
    requires FragmentOf(item, cut).Some?
    ensures var f := FragmentOf(item, cut).value;
      && IndexIn(item, cut) == Some(f.index) && f.id == IdIn(item) && f.name == NameIn(item)
      && f.args == ArgumentsIn(item)
  {
    hide Ascii, Lookup;
    Keys();
  }

  /** The fragments say what the items say. */
  predicate Same(fs: seq<Fragment>, items: seq<Json>, cut: Truncate) {
    |fs| == |items|
    && forall k :: 0 <= k < |fs| ==>
      && IndexIn(items[k], cut) == Some(fs[k].index) && fs[k].id == IdIn(items[k]) && fs[k].name == NameIn(items[k])
      && fs[k].args == ArgumentsIn(items[k])
  }

  lemma {:induction false} ItemsAreFragments(items: seq<Json>, cut: Truncate)
    requires Fragments(items, cut).Some?
    ensures Same(Fragments(items, cut).value, items, cut)
  {
    hide FragmentOf, IndexIn, IdIn, NameIn, ArgumentsIn;
    if items != [] {
      ItemFragment(items[0], cut);
      ItemsAreFragments(items[1..], cut);
    }
  }

  lemma EventReads(data: bytes, cut: Truncate)
    ensures EventText(data) == TextIn(Get(DeltaOf(data), Ascii("content")))
    ensures EventFragments(data, cut).Some? ==>
      Same(EventFragments(data, cut).value, ItemsIn(Get(DeltaOf(data), Ascii("tool_calls"))), cut)
  {
    hide Ascii, Lookup, ParseDocument, Fragments, IndexIn, IdIn, NameIn, ArgumentsIn;
    Keys();
    if Delta(data).Some? {
      var items := ChildItems(Delta(data).value, KEY_CALLS);
      if items.Some? && Fragments(items.value, cut).Some? { ItemsAreFragments(items.value, cut); }
    }
  }

  lemma {:induction false} EventsRead(datas: seq<bytes>, cut: Truncate)
    ensures TextOf(datas) == Texts(datas)
    ensures FragmentsOf(datas, cut).Some? ==> Same(FragmentsOf(datas, cut).value, Items(datas), cut)
    decreases |datas|
  {
    hide Ascii, EventText, EventFragments, DeltaOf, IndexIn, IdIn, NameIn, ArgumentsIn, Get;
    if datas != [] {
      EventsRead(datas[..|datas| - 1], cut);
      EventReads(datas[|datas| - 1], cut);
    }
  }

  lemma {:induction false} MineAreOnly(fs: seq<Fragment>, items: seq<Json>, i: nat, cut: Truncate)
    requires Same(fs, items, cut)
    ensures Same(Only(fs, i), Mine(items, i, cut), cut)
    decreases |fs|
  {
    hide IndexIn, IdIn, NameIn, ArgumentsIn;
    if fs != [] { MineAreOnly(fs[..|fs| - 1], items[..|items| - 1], i, cut); }
  }

  lemma SameTexts(fs: seq<Fragment>, items: seq<Json>, cut: Truncate)
    requires Same(fs, items, cut)
    ensures Ids(fs) == IdsIn(items) && Names(fs) == NamesIn(items) && Args(fs) == ArgsIn(items)
  {
    hide IndexIn, IdIn, NameIn, ArgumentsIn;
  }

  // ----- the message -----

  lemma EntryReads(slot: Slot)
    ensures var call := CallEntry(slot);
      && Get(call, Ascii("id")) == String(slot.id) && Get(call, Ascii("type")) == String(Ascii("function"))
      && Get(Get(call, Ascii("function")), Ascii("name")) == String(slot.name)
      && Get(Get(call, Ascii("function")), Ascii("arguments")) == String(slot.args)
  {
    hide Ascii;
    Keys();
    var ms := CallEntry(slot).members;
    var fs := ms[2].value.members;
    assert Lookup(ms[1..], KEY_KIND) == Some(ms[1].value);
    assert Lookup(ms[2..], TEXT_FUNCTION) == Some(ms[2].value) && Lookup(ms[1..], TEXT_FUNCTION) == Some(ms[2].value);
    assert Lookup(fs[1..], KEY_ARGUMENTS) == Some(fs[1].value);
    assert ms[0].key != KEY_KIND && ms[0].key != TEXT_FUNCTION && ms[1].key != TEXT_FUNCTION;
    assert fs[0].key != KEY_ARGUMENTS;
  }

  /** The entries are the present slots, by ascending index. */
  lemma {:induction false} EntriesAre(slots: seq<Slot>, i: nat, items: seq<Json>, cut: Truncate)
    requires |slots| == MAX_TOOL_CALLS
    requires forall j: nat :: i <= j < MAX_TOOL_CALLS ==> (slots[j].present <==> Mine(items, j, cut) != [])
    ensures var entries, ks := Entries(slots, i, MAX_TOOL_CALLS), Named(items, i, cut);
      |entries| == |ks| && forall k :: 0 <= k < |ks| ==> entries[k] == CallEntry(slots[ks[k]])
    decreases MAX_TOOL_CALLS - i
  {
    hide CallEntry, Mine;
    if i < MAX_TOOL_CALLS { EntriesAre(slots, i + 1, items, cut); }
  }

  /** The calls, as their reader finds them: one per index that some item names. */
  predicate CallsFrom(calls: seq<Json>, items: seq<Json>, cut: Truncate) {
    var ks := Named(items, 0, cut);
    |calls| == |ks| && forall k :: 0 <= k < |ks| ==> CallReads(calls[k], Mine(items, ks[k], cut))
  }

  /** The message, as its reader finds it: from these texts and items. */
  predicate MessageFrom(msg: Json, text: bytes, items: seq<Json>, cut: Truncate) {
    && Get(msg, Ascii("role")) == String(Ascii("assistant"))
    && Get(msg, Ascii("content")) == (if text == [] then Null else String(text))
    && CallsFrom(ItemsIn(Get(msg, Ascii("tool_calls"))), items, cut)
  }

  /** The slot is put together from these items. */
  predicate SlotFrom(slot: Slot, mine: seq<Json>) {
    && (slot.present <==> mine != []) && slot.id == FirstText(IdsIn(mine)) && slot.name == FirstText(NamesIn(mine))
    && slot.args == Joined(ArgsIn(mine))
  }

  lemma SlotReads(fs: seq<Fragment>, items: seq<Json>, i: nat, cut: Truncate)
    requires Same(fs, items, cut) && AllFold(fs) && i < MAX_TOOL_CALLS
    ensures SlotFrom(FoldedSlots(fs)[i], Mine(items, i, cut))
  {
    hide Folded, Only, Mine, FirstText, IndexIn, IdIn, NameIn, ArgumentsIn, Ids, Names, Args, IdsIn, NamesIn, ArgsIn;
    MineAreOnly(fs, items, i, cut);
    SameTexts(Only(fs, i), Mine(items, i, cut), cut);
    FoldedMeans(Only(fs, i));
  }

  lemma MessageReads(text: bytes, fs: seq<Fragment>, items: seq<Json>, cut: Truncate)
    requires Same(fs, items, cut) && AllFold(fs) && AllNamed(fs)
    ensures MessageFrom(Message(text, fs), text, items, cut)
  {
    hide Ascii, Folded, Only, Mine, FirstText, IdsIn, NamesIn, ArgsIn, Entries, CallEntry, Lookup, AllFold, Same,
        CallsFrom;
    Keys();
    var slots := FoldedSlots(fs);
    var acc := Acc(text, slots, MAX_TOOL_CALLS, [], Usage(0, 0, 0));
    AssembledReads(acc);
    forall j: nat | j < MAX_TOOL_CALLS ensures SlotFrom(slots[j], Mine(items, j, cut)) { SlotReads(fs, items, j, cut); }
    AllRead(slots, items, cut);
  }

  lemma AllRead(slots: seq<Slot>, items: seq<Json>, cut: Truncate)
    requires |slots| == MAX_TOOL_CALLS
    requires forall j: nat :: j < MAX_TOOL_CALLS ==> SlotFrom(slots[j], Mine(items, j, cut))
    requires forall j: nat :: j < MAX_TOOL_CALLS && slots[j].present ==> slots[j].id != [] && slots[j].name != []
    ensures CallsFrom(Entries(slots, 0, MAX_TOOL_CALLS), items, cut)
  {
    hide Ascii, Mine, FirstText, IdsIn, NamesIn, ArgsIn, Entries, CallEntry, Lookup;
    EntriesAre(slots, 0, items, cut);
    var ks := Named(items, 0, cut);
    forall k | 0 <= k < |ks| ensures CallReads(Entries(slots, 0, MAX_TOOL_CALLS)[k], Mine(items, ks[k], cut)) {
      assert SlotFrom(slots[ks[k]], Mine(items, ks[k], cut));
      EntryReads(slots[ks[k]]);
    }
  }

  /**
   Over every run of a stream: a message that is reported has the role and the texts of its attempt's events, and one
   call per index that some item names, by ascending index, each with the first non-empty id and name of that index's
   items and all their arguments in order.
   */
  lemma ReportedCalls(issued: bool, events: seq<StreamEvent>, cut: Truncate)
    requires PossibleStream(FirstStream(issued), events, cut)
    requires AfterEvents(FirstStream(issued), events, cut).trace.dones != []
    ensures var datas, dones := LastAttempt(FirstStream(issued), [], events, cut),
        AfterEvents(FirstStream(issued), events, cut).trace.dones;
      |dones| == 1 && MessageFrom(dones[0], Texts(datas), Items(datas), cut)
  {
    hide Message, FragmentsOf, TextOf, AllFold, AllNamed, AfterEvents, LastAttempt, PossibleStream, MessageFrom, Same,
        Texts, Items, FirstStream;
    ReportedMessage(issued, events, cut);
    var datas := LastAttempt(FirstStream(issued), [], events, cut);
    EventsRead(datas, cut);
    MessageReads(TextOf(datas), FragmentsOf(datas, cut).value, Items(datas), cut);
  }
}
