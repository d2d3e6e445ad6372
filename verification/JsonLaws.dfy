/** What the converters of JsonSpec promise: what is rejected, what comes back, and what a rejection leaves behind. */
module JsonLaws {
  import opened Bytes
  import opened TreeSpec
  import opened TreeLaws
  import opened JsonSpec

  // ----- trees -----

  /** A tree is rejected exactly when it is nested too deep. */
  lemma {:induction false} ConvertsIff(j: JNode, room: nat)
    ensures Convert(j, room).0 <==> Nesting(j) <= room
    decreases j, 1
  {
    if j.JList? && room > 0 { KidsConvertIff(j.kids, room - 1); }
  }

  lemma {:induction false} KidsConvertIff(kids: seq<Kid>, room: nat)
    ensures ConvertKids(kids, room).0 <==> NestingKids(kids) <= room
    decreases kids, 0
  {
    if kids != [] {
      KidConvertsIff(kids[0], room);
      KidsConvertIff(kids[1..], room);
    }
  }

  lemma {:induction false} KidConvertsIff(k: Kid, room: nat)
    ensures ConvertKid(k, room).0 <==> NestingKid(k) <= room
    decreases k, 2
  {
    ConvertsIff(k.node, room);
  }

  lemma CTextIsItself(s: bytes)
    requires NUL !in s
    ensures CText(Some(s)) == s
  {
  }

  /** The node with plain zeros for negative ones. */
  function Unsigned(j: JNode): JNode
    decreases j, 1
  {
    match j
    case JNumber(NegativeZero) => JNumber(Finite(0.0))
    case JList(table, kids) => JList(table, UnsignedKids(kids))
    case _ => j
  }

  function UnsignedKids(kids: seq<Kid>): (r: seq<Kid>)
    ensures |r| == |kids|
    decreases kids, 0
  {
    if kids == [] then [] else [UnsignedKid(kids[0])] + UnsignedKids(kids[1..])
  }

  function UnsignedKid(k: Kid): Kid
    decreases k, 2
  {
    Kid(k.key, Unsigned(k.node))
  }

  /** No number in the tree is a negative zero. */
  predicate NoNegativeZero(j: JNode)
    decreases j, 1
  {
    match j
    case JNumber(d) => d != NegativeZero
    case JList(_, kids) => NoNegativeZeroIn(kids)
    case _ => true
  }

  predicate NoNegativeZeroIn(kids: seq<Kid>)
    decreases kids, 0
  {
    kids == [] || (NoNegativeZeroKid(kids[0]) && NoNegativeZeroIn(kids[1..]))
  }

  predicate NoNegativeZeroKid(k: Kid)
    decreases k, 2
  {
    NoNegativeZero(k.node)
  }

  lemma {:induction false} UnsignedIff(j: JNode)
    ensures Unsigned(j) == j <==> NoNegativeZero(j)
    decreases j, 1
  {
    if j.JList? { KidsUnsignedIff(j.kids); }
  }

  lemma {:induction false} KidsUnsignedIff(kids: seq<Kid>)
    ensures UnsignedKids(kids) == kids <==> NoNegativeZeroIn(kids)
    decreases kids, 0
  {
    if kids != [] {
      KidUnsignedIff(kids[0]);
      KidsUnsignedIff(kids[1..]);
      assert UnsignedKids(kids)[0] == UnsignedKid(kids[0]) && UnsignedKids(kids)[1..] == UnsignedKids(kids[1..]);
      assert kids == [kids[0]] + kids[1..];
    }
  }

  lemma {:induction false} KidUnsignedIff(k: Kid)
    ensures UnsignedKid(k) == k <==> NoNegativeZeroKid(k)
    decreases k, 2
  {
    UnsignedIff(k.node);
  }

  /** object_to_cjson undoes cjson_to_object, up to the sign of zeros. */
  lemma {:induction false} BackUndoesConvert(j: JNode, room: nat)
    requires WellFormed(j) && Convert(j, room).0
    ensures Back(Convert(j, room).1) == Unsigned(j)
    decreases j, 1
  {
    hide Find;
    match j
    case JString(s) => CTextIsItself(s);
    case JList(table, kids) => KidsComeBack(kids, table, room - 1);
    case _ =>
  }

  lemma {:induction false} KidsComeBack(kids: seq<Kid>, table: bool, room: nat)
    requires WellFormedKids(kids, table) && ConvertKids(kids, room).0
    ensures BackAll(ConvertKids(kids, room).1, table) == UnsignedKids(kids)
    decreases kids, 0
  {
    if kids != [] {
      KidComesBack(kids[0], table, room);
      KidsComeBack(kids[1..], table, room);
      var entries := ConvertKids(kids, room).1;
      assert entries[1..] == ConvertKids(kids[1..], room).1;
    }
  }

  lemma {:induction false} KidComesBack(k: Kid, table: bool, room: nat)
    requires WellFormedKid(k, table) && ConvertKid(k, room).0
    ensures BackEntry(ConvertKid(k, room).1, table) == UnsignedKid(k)
    decreases k, 2
  {
    hide CText;
    BackUndoesConvert(k.node, room);
    if table { CTextIsItself(k.key.value); }
  }

  /**
   For every cJSON tree: it converts exactly when at most 32 containers are nested.  object_to_cjson then gives it back
   with plain zeros for negative ones, and unchanged exactly when it holds no negative zero.
   */
  lemma ConversionRoundTrip(j: JNode)
    requires WellFormed(j)
    ensures Convert(j, DEPTH_CAP).0 <==> Nesting(j) <= DEPTH_CAP
    ensures Nesting(j) <= DEPTH_CAP ==> Back(Convert(j, DEPTH_CAP).1) == Unsigned(j)
    ensures Nesting(j) <= DEPTH_CAP ==> (Back(Convert(j, DEPTH_CAP).1) == j <==> NoNegativeZero(j))
  {
    hide Convert, Nesting, Back, WellFormed, Unsigned, NoNegativeZero;
    ConvertsIff(j, DEPTH_CAP);
    UnsignedIff(j);
    if Nesting(j) <= DEPTH_CAP { BackUndoesConvert(j, DEPTH_CAP); }
  }

  /** What is built, whole or not, is no deeper than the cap. */
  lemma {:induction false} ConvertIsShallow(j: JNode, room: nat)
    ensures Depth(Convert(j, room).1) <= room
    decreases j, 1
  {
    if j.JList? && room > 0 { KidsAreShallow(j.kids, room - 1); }
  }

  lemma {:induction false} KidsAreShallow(kids: seq<Kid>, room: nat)
    ensures DepthFrom(ConvertKids(kids, room).1) <= room
    decreases kids, 0
  {
    if kids != [] {
      KidIsShallow(kids[0], room);
      KidsAreShallow(kids[1..], room);
      BlankIsShallow(kids[1..]);
      var (ok, e) := ConvertKid(kids[0], room);
      var entries := ConvertKids(kids, room).1;
      assert entries[1..] == if ok then ConvertKids(kids[1..], room).1 else Blank(kids[1..]);
    }
  }

  lemma {:induction false} KidIsShallow(k: Kid, room: nat)
    ensures DepthEntry(ConvertKid(k, room).1) <= room
    decreases k, 2
  {
    ConvertIsShallow(k.node, room);
  }

  lemma {:induction false} BlankIsShallow(kids: seq<Kid>)
    ensures DepthFrom(Blank(kids)) == 0
  {
    if kids != [] {
      BlankIsShallow(kids[1..]);
      var first := Entry(kids[0].key, Leaf(Nil));
      assert Blank(kids)[0] == first && Blank(kids)[1..] == Blank(kids[1..]);
      assert DepthEntry(first) == 0;
    }
  }

  // ----- memory -----

  /** From the `i`th on, the values of the store are still Nil. */
  predicate NilFrom(m: Mem, ptr: nat, i: nat) {
    ptr in m.blocks && m.blocks[ptr].SlotsBlock?
    && forall j :: i <= j < |m.blocks[ptr].slots| ==> m.blocks[ptr].slots[j].value == Value(Nil)
  }

  /** One key written behind the ones before. */
  lemma KeyWritten(key: Option<bytes>, ptr: nat, i: nat, n: nat, m: Mem)
    requires Sound(m) && Store(m.blocks, ptr, n) && i < n && NilFrom(m, ptr, i)
    ensures var (m1, ref) := Dup(key, m);
      var after := PutKey(m1, ptr, i, ref);
      && Grown(m, after, ptr) && Kin(m, after, ptr, n, i, i + 1) && NilFrom(after, ptr, i + 1)
      && Sound(after) && Store(after.blocks, ptr, n)
      && HoldsEntry(after.blocks, after.blocks[ptr].slots[i], Entry(key, Leaf(Nil)))
      && multiset(OwnedEntry(after.blocks, after.blocks[ptr].slots[i], Entry(key, Leaf(Nil))))
          == Range(m.next, after.next)
  {
    hide Dup, Range;
    DupHolds(key, m);
    var (m1, ref) := Dup(key, m);
    InRange(TextOwned(ref), m.next, m1.next);
    assert key.Some? ==> ref.ptr in TextOwned(ref);
    assert TextOwned(ref) + [] == TextOwned(ref);
  }

  lemma NothingFilled(m: Mem, ptr: nat, n: nat)
    requires Sound(m) && Store(m.blocks, ptr, n)
    ensures Grown(m, m, ptr) && Kin(m, m, ptr, n, n, n) && Range(m.next, m.next) == multiset{}
    ensures var slots := m.blocks[ptr].slots;
      HoldsFrom(m.blocks, slots[n..], []) && OwnedFrom(m.blocks, slots[n..], []) == []
  {
  }

  lemma {:induction false} DupKeysHolds(kids: seq<Kid>, ptr: nat, i: nat, m: Mem)
    requires Sound(m) && Store(m.blocks, ptr, i + |kids|) && NilFrom(m, ptr, i)
    ensures var after := DupKeys(kids, ptr, i, m);
      && Grown(m, after, ptr) && Kin(m, after, ptr, i + |kids|, i, i + |kids|)
      && HoldsFrom(after.blocks, after.blocks[ptr].slots[i..], Blank(kids))
      && multiset(OwnedFrom(after.blocks, after.blocks[ptr].slots[i..], Blank(kids))) == Range(m.next, after.next)
    decreases |kids|
  {
    hide Holds, HoldsEntry, Owned, OwnedEntry, Dup, PutKey, Range, Grown, Kin, NilFrom, HoldsFrom, OwnedFrom, Sound,
        Store;
    if kids == [] {
      NothingFilled(m, ptr, i);
    } else {
      var (m0, ref) := Dup(kids[0].key, m);
      var m1 := PutKey(m0, ptr, i, ref);
      KeyWritten(kids[0].key, ptr, i, i + |kids|, m);
      DupKeysHolds(kids[1..], ptr, i + 1, m1);
      var m2 := DupKeys(kids[1..], ptr, i + 1, m1);
      EntryThenRest(m, m1, m2, ptr, i, Entry(kids[0].key, Leaf(Nil)), Blank(kids[1..]), multiset{}, multiset{});
      assert [Entry(kids[0].key, Leaf(Nil))] + Blank(kids[1..]) == Blank(kids);
    }
  }

  /**
   An element built by `m1`, and the rest of the store by `m2`: together they hold the entries and own what was there
   before and what is new.
   */
  lemma EntryThenRest(m: Mem, m1: Mem, m2: Mem, ptr: nat, i: nat, e: Entry, rest: seq<Entry>, had: multiset<nat>,
      kept: multiset<nat>)
    requires Sound(m) && Grown(m, m1, ptr) && Grown(m1, m2, ptr)
    requires Kin(m, m1, ptr, i + 1 + |rest|, i, i + 1) && Kin(m1, m2, ptr, i + 1 + |rest|, i + 1, i + 1 + |rest|)
    requires HoldsEntry(m1.blocks, m1.blocks[ptr].slots[i], e) && ptr !in had
    requires multiset(OwnedEntry(m1.blocks, m1.blocks[ptr].slots[i], e)) == had + Range(m.next, m1.next)
    requires HoldsFrom(m2.blocks, m2.blocks[ptr].slots[i + 1..], rest)
    requires multiset(OwnedFrom(m2.blocks, m2.blocks[ptr].slots[i + 1..], rest)) == kept + Range(m1.next, m2.next)
    ensures Grown(m, m2, ptr) && Kin(m, m2, ptr, i + 1 + |rest|, i, i + 1 + |rest|)
    ensures HoldsFrom(m2.blocks, m2.blocks[ptr].slots[i..], [e] + rest)
    ensures multiset(OwnedFrom(m2.blocks, m2.blocks[ptr].slots[i..], [e] + rest))
      == had + kept + Range(m.next, m2.next)
  {
    hide HoldsEntry, OwnedEntry, HoldsFrom, OwnedFrom, Range, Grown, Kin, Kept;
    KinThrough(m, m1, m2, ptr, i, i + 1 + |rest|);
    var slots := m2.blocks[ptr].slots;
    var mine := OwnedEntry(m1.blocks, slots[i], e);
    OwnedEntryIsLive(m1.blocks, slots[i], e);
    NotBefore(m, m1, ptr);
    assert ptr !in mine by { assert ptr !in multiset(mine); }
    KeptAcross(m1, m2, ptr, mine);
    HoldsEntryStays(m1.blocks, m2.blocks, slots[i], e);
    EntryInFront(m2.blocks, slots[i..], e, rest);
    RangeParts(m.next, m1.next, m2.next);
  }

  lemma EntryInFront(blocks: map<nat, Block>, slots: seq<Slot>, e: Entry, rest: seq<Entry>)
    requires slots != [] && HoldsEntry(blocks, slots[0], e) && HoldsFrom(blocks, slots[1..], rest)
    ensures HoldsFrom(blocks, slots, [e] + rest)
    ensures OwnedFrom(blocks, slots, [e] + rest)
      == OwnedEntry(blocks, slots[0], e) + OwnedFrom(blocks, slots[1..], rest)
  {
    hide HoldsEntry, OwnedEntry;
    assert ([e] + rest)[1..] == rest;
  }

  lemma NotBefore(m: Mem, m1: Mem, ptr: nat)
    requires Sound(m) && Grown(m, m1, ptr) && ptr in m.blocks
    ensures ptr !in Range(m.next, m1.next)
  {
  }

  /** What lies elsewhere is untouched. */
  lemma KeptAcross(m: Mem, after: Mem, ptr: nat, s: seq<nat>)
    requires Grown(m, after, ptr) && Kept(m.blocks, m.blocks, s) && ptr !in s
    ensures Kept(m.blocks, after.blocks, s)
  {
  }

  /** One element written, then those behind it. */
  lemma KinThrough(m: Mem, m1: Mem, m2: Mem, ptr: nat, i: nat, n: nat)
    requires Sound(m) && Grown(m, m1, ptr) && Grown(m1, m2, ptr) && i < n
    requires Kin(m, m1, ptr, n, i, i + 1) && Kin(m1, m2, ptr, n, i + 1, n)
    ensures Store(m1.blocks, ptr, n) && Store(m2.blocks, ptr, n) && ptr in m.blocks
    ensures Grown(m, m2, ptr) && Kin(m, m2, ptr, n, i, n) && m.next <= m1.next <= m2.next
    ensures var slots := m2.blocks[ptr].slots;
      slots[i] == m1.blocks[ptr].slots[i] && slots[i..][0] == slots[i] && slots[i..][1..] == slots[i + 1..]
  {
    var before, slots := m1.blocks[ptr].slots, m2.blocks[ptr].slots;
    assert slots[i] == slots[..i + 1][i] == before[..i + 1][i] == before[i];
    assert slots[..i] == slots[..i + 1][..i] == before[..i + 1][..i] == before[..i] == m.blocks[ptr].slots[..i];
  }

  lemma NodeInitHolds(j: JNode, m: Mem)
    requires Sound(m)
    ensures var (after, c) := NodeInit(j, m);
      && Grown(m, after, 0) && Holds(after.blocks, c, Unfilled(j))
      && multiset(Owned(after.blocks, c, Unfilled(j))) == Range(m.next, after.next)
  {
    hide Dup, Alloc, Range, DupKeys;
    NothingGrows(m);
    match j
    case JString(s) => DupHolds(Some(s), m);
    case JList(table, kids) =>
      if kids != [] { ListInitHolds(table, kids, m); }
    case _ =>
  }

  lemma ListInitHolds(table: bool, kids: seq<Kid>, m: Mem)
    requires Sound(m) && kids != []
    ensures var (after, c) := NodeInit(JList(table, kids), m);
      && Grown(m, after, 0) && Holds(after.blocks, c, Node(table, Blank(kids)))
      && multiset(Owned(after.blocks, c, Node(table, Blank(kids)))) == Range(m.next, after.next)
  {
    hide Alloc, Range, DupKeys, HoldsFrom, OwnedFrom;
    var block := SlotsBlock(NilSlots(|kids|));
    AllocGrows(m, block);
    var (m1, p) := Alloc(m, block);
    InRange([p], m.next, m1.next);
    DupKeysHolds(kids, p, 0, m1);
    var m2 := DupKeys(kids, p, 0, m1);
    assert m2.blocks[p].slots[0..] == m2.blocks[p].slots;
    assert p in [p];
    RangeParts(m.next, m1.next, m2.next);
  }

  lemma {:induction false} FillNodeHolds(j: JNode, c: Cell, room: nat, m: Mem)
    requires Sound(m) && Holds(m.blocks, c, Unfilled(j)) && Distinct(Owned(m.blocks, c, Unfilled(j)))
    requires j.JList? ==> room > 0
    ensures var (ok, after) := FillNode(j, c, room, m);
      var (whole, t) := Convert(j, room);
      && ok == whole && Grown(m, after, if c.NodeCell? then c.ptr else 0) && Holds(after.blocks, c, t)
      && multiset(Owned(after.blocks, c, t)) == multiset(Owned(m.blocks, c, Unfilled(j))) + Range(m.next, after.next)
    decreases j, 1
  {
    hide HoldsFrom, OwnedFrom, FillKids, ConvertKids, Distinct, Range;
    NothingGrows(m);
    if j.JList? {
      if j.kids == [] {
        NoKids(j.kids, room - 1, m);
      } else {
        var slots := m.blocks[c.ptr].slots;
        assert slots[0..] == slots;
        var keys := OwnedFrom(m.blocks, slots, Blank(j.kids));
        OnlyOnce(keys, c.ptr);
        FillKidsHolds(j.kids, c.ptr, 0, room - 1, m);
        var after := FillNode(j, c, room, m).1;
        assert after.blocks[c.ptr].slots[0..] == after.blocks[c.ptr].slots;
      }
    }
  }

  lemma OnlyOnce(s: seq<nat>, a: nat)
    requires Distinct(s + [a])
    ensures a !in s
  {
    assert multiset(s + [a])[a] == multiset(s)[a] + 1;
    assert a !in multiset(s);
  }

  lemma NoKids(kids: seq<Kid>, room: nat, m: Mem)
    requires kids == []
    ensures ConvertKids(kids, room) == (true, []) && forall p, i :: FillKids(kids, p, i, room, m) == (true, m)
  {
  }

  lemma {:induction false} FillKidsHolds(kids: seq<Kid>, ptr: nat, i: nat, room: nat, m: Mem)
    requires Sound(m) && Store(m.blocks, ptr, i + |kids|)
    requires HoldsFrom(m.blocks, m.blocks[ptr].slots[i..], Blank(kids))
    requires ptr !in OwnedFrom(m.blocks, m.blocks[ptr].slots[i..], Blank(kids))
    ensures var (ok, after) := FillKids(kids, ptr, i, room, m);
      var (all, entries) := ConvertKids(kids, room);
      && ok == all && Grown(m, after, ptr) && Kin(m, after, ptr, i + |kids|, i, i + |kids|)
      && HoldsFrom(after.blocks, after.blocks[ptr].slots[i..], entries)
      && multiset(OwnedFrom(after.blocks, after.blocks[ptr].slots[i..], entries))
         == multiset(OwnedFrom(m.blocks, m.blocks[ptr].slots[i..], Blank(kids))) + Range(m.next, after.next)
    decreases kids, 0
  {
    hide Holds, Owned, FillKid, ConvertKid, Range, Grown, Kin, HoldsFrom, OwnedFrom, HoldsEntry, OwnedEntry, Sound,
        Store;
    if kids == [] {
      NothingFilled(m, ptr, i);
    } else {
      SlotsAt(m.blocks, ptr, i, i + |kids|);
      var slots := m.blocks[ptr].slots;
      FirstBlank(m.blocks, slots[i..], kids, ptr);
      var key, others := slots[i].key, OwnedFrom(m.blocks, slots[i + 1..], Blank(kids[1..]));
      FillKidHolds(kids[0], ptr, i, i + |kids|, room, m);
      var (ok, m1) := FillKid(kids[0], ptr, i, room, m);
      RestUntouched(kids[1..], ptr, i + 1, m, m1);
      var e := ConvertKid(kids[0], room).1;
      if ok {
        FillKidsHolds(kids[1..], ptr, i + 1, room, m1);
        var (_, m2) := FillKids(kids[1..], ptr, i + 1, room, m1);
        EntryThenRest(m, m1, m2, ptr, i, e, ConvertKids(kids[1..], room).1, multiset(TextOwned(key)), multiset(others));
      } else {
        NothingMore(m1, ptr, i + 1, i + |kids|);
        EntryThenRest(m, m1, m1, ptr, i, e, Blank(kids[1..]), multiset(TextOwned(key)), multiset(others));
      }
    }
  }

  lemma SlotsAt(blocks: map<nat, Block>, ptr: nat, i: nat, n: nat)
    requires Store(blocks, ptr, n) && i < n
    ensures ptr in blocks && blocks[ptr].SlotsBlock?
    ensures var slots := blocks[ptr].slots;
      |slots| == n && slots[i..][0] == slots[i] && slots[i..][1..] == slots[i + 1..]
  {
  }

  lemma NothingMore(m: Mem, ptr: nat, i: nat, n: nat)
    requires Sound(m) && Store(m.blocks, ptr, n) && i <= n
    ensures Grown(m, m, ptr) && Kin(m, m, ptr, n, i, n) && Range(m.next, m.next) == multiset{}
  {
  }

  /** The first of the blank elements, and the others. */
  lemma FirstBlank(blocks: map<nat, Block>, slots: seq<Slot>, kids: seq<Kid>, ptr: nat)
    requires kids != [] && HoldsFrom(blocks, slots, Blank(kids)) && ptr !in OwnedFrom(blocks, slots, Blank(kids))
    ensures |slots| == |kids| && HoldsEntry(blocks, slots[0], Entry(kids[0].key, Leaf(Nil)))
    ensures HoldsFrom(blocks, slots[1..], Blank(kids[1..])) && ptr !in TextOwned(slots[0].key)
    ensures ptr !in OwnedFrom(blocks, slots[1..], Blank(kids[1..]))
    ensures multiset(OwnedFrom(blocks, slots, Blank(kids)))
      == multiset(TextOwned(slots[0].key)) + multiset(OwnedFrom(blocks, slots[1..], Blank(kids[1..])))
  {
    hide HoldsEntry, OwnedEntry;
    assert Blank(kids)[1..] == Blank(kids[1..]);
    NilOwnsNothing(blocks, slots[0], kids[0].key);
  }

  lemma NilOwnsNothing(blocks: map<nat, Block>, slot: Slot, key: Option<bytes>)
    requires HoldsEntry(blocks, slot, Entry(key, Leaf(Nil)))
    ensures OwnedEntry(blocks, slot, Entry(key, Leaf(Nil))) == TextOwned(slot.key)
  {
  }

  /** What follows the element in work stays blank. */
  lemma RestUntouched(kids: seq<Kid>, ptr: nat, i: nat, m: Mem, after: Mem)
    requires Sound(m) && i > 0 && Kin(m, after, ptr, i + |kids|, i - 1, i) && Grown(m, after, ptr)
    requires HoldsFrom(m.blocks, m.blocks[ptr].slots[i..], Blank(kids))
    requires ptr !in OwnedFrom(m.blocks, m.blocks[ptr].slots[i..], Blank(kids))
    ensures Sound(after) && Store(after.blocks, ptr, i + |kids|)
    ensures HoldsFrom(after.blocks, after.blocks[ptr].slots[i..], Blank(kids))
    ensures OwnedFrom(after.blocks, after.blocks[ptr].slots[i..], Blank(kids))
      == OwnedFrom(m.blocks, m.blocks[ptr].slots[i..], Blank(kids))
  {
    hide HoldsFrom, OwnedFrom;
    OwnedFromIsLive(m.blocks, m.blocks[ptr].slots[i..], Blank(kids));
    HoldsFromStays(m.blocks, after.blocks, m.blocks[ptr].slots[i..], Blank(kids));
  }

  lemma {:induction false} FillKidHolds(k: Kid, ptr: nat, i: nat, n: nat, room: nat, m: Mem)
    requires Sound(m) && Store(m.blocks, ptr, n) && i < n && ptr !in TextOwned(m.blocks[ptr].slots[i].key)
    requires HoldsEntry(m.blocks, m.blocks[ptr].slots[i], Entry(k.key, Leaf(Nil)))
    ensures var (ok, after) := FillKid(k, ptr, i, room, m);
      var (whole, e) := ConvertKid(k, room);
      && ok == whole && Grown(m, after, ptr) && Kin(m, after, ptr, n, i, i + 1)
      && HoldsEntry(after.blocks, after.blocks[ptr].slots[i], e)
      && multiset(OwnedEntry(after.blocks, after.blocks[ptr].slots[i], e))
         == multiset(TextOwned(m.blocks[ptr].slots[i].key)) + Range(m.next, after.next)
    decreases k, 2
  {
    hide Holds, Owned, FillNode, NodeInit, Unfilled, Range;
    if k.node.JList? && room == 0 {
      NothingGrows(m);
      NilOwnsNothing(m.blocks, m.blocks[ptr].slots[i], k.key);
    } else {
      var (m1, c) := NodeInit(k.node, m);
      NodeInitHolds(k.node, m);
      var mine := Owned(m1.blocks, c, Unfilled(k.node));
      InRange(mine, m.next, m1.next);
      var m2 := PutValue(m1, ptr, i, c);
      ValueWritten(ptr, i, n, m, m1, c);
      OwnedIsLive(m1.blocks, c, Unfilled(k.node));
      HoldsStays(m1.blocks, m2.blocks, c, Unfilled(k.node));
      RangeIsDistinct(mine, m.next, m1.next);
      FillNodeHolds(k.node, c, room, m2);
      var m3 := FillNode(k.node, c, room, m2).1;
      NodeOwnsItsStore(m2.blocks, c, Unfilled(k.node));
      KeyStays(k.key, ptr, i, n, m, m2, m3, c);
      RangeParts(m.next, m1.next, m3.next);
    }
  }

  lemma NodeOwnsItsStore(blocks: map<nat, Block>, c: Cell, t: Tree)
    requires Holds(blocks, c, t)
    ensures c.NodeCell? && c.ptr != 0 ==> c.ptr in Owned(blocks, c, t)
  {
  }

  lemma RangeIsDistinct(s: seq<nat>, first: nat, next: nat)
    requires multiset(s) == Range(first, next)
    ensures Distinct(s)
  {
    hide Range;
  }

  /** The element's key, and the store around it, outlast the filling of its value. */
  lemma KeyStays(key: Option<bytes>, ptr: nat, i: nat, n: nat, m: Mem, m2: Mem, m3: Mem, c: Cell)
    requires Sound(m) && Store(m.blocks, ptr, n) && i < n && ptr !in TextOwned(m.blocks[ptr].slots[i].key)
    requires Grown(m, m2, ptr) && Kin(m, m2, ptr, n, i, i + 1)
    requires m2.blocks[ptr].slots[i] == m.blocks[ptr].slots[i].(value := c)
    requires TextAt(m.blocks, m.blocks[ptr].slots[i].key, key)
    requires Grown(m2, m3, if c.NodeCell? then c.ptr else 0) && (c.NodeCell? && c.ptr != 0 ==> c.ptr >= m.next)
    ensures Grown(m, m3, ptr) && Kin(m, m3, ptr, n, i, i + 1)
    ensures m3.blocks[ptr].slots[i] == m.blocks[ptr].slots[i].(value := c)
    ensures TextAt(m3.blocks, m.blocks[ptr].slots[i].key, key)
  {
    var ref := m.blocks[ptr].slots[i].key;
    assert key.Some? ==> ref.ptr in TextOwned(ref);
  }

  /**
   cjson_to_object: what is built, whole or rejected half way, is held by the root; each new block is owned exactly
   once, and no other block of the heap is touched.  So releasing a rejected tree leaves nothing behind.
   */
  lemma BuildHolds(j: JNode, m: Mem)
    requires Sound(m)
    ensures var (ok, after, c) := Build(j, m);
      var t := Convert(j, DEPTH_CAP).1;
      && (ok <==> Nesting(j) <= DEPTH_CAP) && Depth(t) <= DEPTH_CAP
      && Grown(m, after, 0) && Holds(after.blocks, c, t)
      && multiset(Owned(after.blocks, c, t)) == Range(m.next, after.next) && Distinct(Owned(after.blocks, c, t))
      && Without(after.blocks, Owned(after.blocks, c, t)) == m.blocks
  {
    hide NodeInit, FillNode, Convert, Holds, Owned, Range, Unfilled, Distinct, Without;
    var (m1, c) := NodeInit(j, m);
    NodeInitHolds(j, m);
    RangeIsDistinct(Owned(m1.blocks, c, Unfilled(j)), m.next, m1.next);
    FillNodeHolds(j, c, DEPTH_CAP, m1);
    var (ok, after) := FillNode(j, c, DEPTH_CAP, m1);
    var owned := Owned(after.blocks, c, Convert(j, DEPTH_CAP).1);
    RangeParts(m.next, m1.next, after.next);
    RangeIsDistinct(owned, m.next, after.next);
    ConvertsIff(j, DEPTH_CAP);
    ConvertIsShallow(j, DEPTH_CAP);
    NodeOwnsItsStore(m1.blocks, c, Unfilled(j));
    InRange(Owned(m1.blocks, c, Unfilled(j)), m.next, m1.next);
    AllNewReleased(m, after, owned);
  }

  lemma AllNewReleased(m: Mem, after: Mem, owned: seq<nat>)
    requires Sound(m) && Grown(m, after, 0) && multiset(owned) == Range(m.next, after.next)
    ensures Without(after.blocks, owned) == m.blocks
  {
    hide Range;
    forall a ensures a in owned <==> m.next <= a < after.next { assert a in owned <==> a in multiset(owned); }
    assert Without(after.blocks, owned) == m.blocks;
  }
}
