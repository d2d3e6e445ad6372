/**
 What the walks of TreeSpec do to memory: a copy holds the same tree in storage of its own, nothing else is
 touched, and releasing it gives back exactly what was there before.
 */
module TreeLaws {
  import opened Bytes
  import opened TreeSpec

  /** The addresses from `lo` up to `hi`, once each. */
  ghost function Range(lo: nat, hi: nat): (r: multiset<nat>)
    ensures forall a :: r[a] == if lo <= a < hi then 1 else 0
    decreases hi - lo
  {
    if lo >= hi then multiset{} else Range(lo + 1, hi) + multiset{lo}
  }

  lemma RangeParts(a: nat, b: nat, c: nat)
    requires a <= b <= c
    ensures Range(a, b) + Range(b, c) == Range(a, c)
  {
  }

  /** Addresses are handed out once and 0 never is. */
  ghost predicate Sound(m: Mem) {
    m.next > 0 && forall a :: a in m.blocks ==> 0 < a < m.next
  }

  /** Between the two memories everything from m.next on was allocated, and at most the block at `ptr` rewritten. */
  ghost predicate Grown(m: Mem, after: Mem, ptr: nat) {
    && Sound(after) && m.next <= after.next
    && (forall a :: a in after.blocks <==> a in m.blocks || m.next <= a < after.next)
    && (forall a :: a in m.blocks && a != ptr ==> after.blocks[a] == m.blocks[a])
  }

  /** The blocks at these addresses are the same in both memories. */
  ghost predicate Kept(blocks: map<nat, Block>, after: map<nat, Block>, addresses: seq<nat>) {
    forall a :: a in addresses ==> a in blocks && a in after && after[a] == blocks[a]
  }

  // ----- a tree depends on its own blocks only -----

  lemma {:induction false} HoldsStays(blocks: map<nat, Block>, after: map<nat, Block>, c: Cell, t: Tree)
    requires Holds(blocks, c, t) && Kept(blocks, after, Owned(blocks, c, t))
    ensures Holds(after, c, t) && Owned(after, c, t) == Owned(blocks, c, t)
    decreases t, 1
  {
    if t.Node? && t.entries != [] {
      var slots := blocks[c.ptr].slots;
      assert c.ptr in Owned(blocks, c, t);
      assert Kept(blocks, after, OwnedFrom(blocks, slots, t.entries));
      HoldsFromStays(blocks, after, slots, t.entries);
    }
  }

  lemma {:induction false} HoldsFromStays(blocks: map<nat, Block>, after: map<nat, Block>, slots: seq<Slot>,
      rest: seq<Entry>)
    requires HoldsFrom(blocks, slots, rest) && Kept(blocks, after, OwnedFrom(blocks, slots, rest))
    ensures HoldsFrom(after, slots, rest) && OwnedFrom(after, slots, rest) == OwnedFrom(blocks, slots, rest)
    decreases rest, 0
  {
    if rest != [] {
      HoldsEntryStays(blocks, after, slots[0], rest[0]);
      HoldsFromStays(blocks, after, slots[1..], rest[1..]);
    }
  }

  lemma {:induction false} HoldsEntryStays(blocks: map<nat, Block>, after: map<nat, Block>, slot: Slot, e: Entry)
    requires HoldsEntry(blocks, slot, e) && Kept(blocks, after, OwnedEntry(blocks, slot, e))
    ensures HoldsEntry(after, slot, e) && OwnedEntry(after, slot, e) == OwnedEntry(blocks, slot, e)
    decreases e, 2
  {
    HoldsStays(blocks, after, slot.value, e.value);
  }

  // ----- what a copy allocates -----

  lemma AllocGrows(m: Mem, b: Block)
    requires Sound(m)
    ensures var (after, p) := Alloc(m, b);
      Grown(m, after, 0) && p > 0 && p in after.blocks && after.blocks[p] == b
          && multiset{p} == Range(m.next, after.next)
  {
  }

  lemma DupHolds(s: Option<bytes>, m: Mem)
    requires Sound(m)
    ensures var (after, ref) := Dup(s, m);
      Grown(m, after, 0) && TextAt(after.blocks, ref, s) && multiset(TextOwned(ref)) == Range(m.next, after.next)
  {
    hide Range, Alloc, Grown;
    if s.Some? { AllocGrows(m, TextBlock(s.value)); } else { NothingGrows(m); }
  }

  lemma NothingGrows(m: Mem)
    requires Sound(m)
    ensures Grown(m, m, 0) && Range(m.next, m.next) == multiset{}
  {
  }

  /** The allocation a cell names itself. */
  function CellOwned(c: Cell): seq<nat> {
    match c
    case Value(_) => []
    case StrCell(ref) => TextOwned(ref)
    case NodeCell(_, ptr, _) => if ptr == 0 then [] else [ptr]
  }

  /** The cell of a tree whose elements are still to come. */
  predicate Opened(t: Tree, c: Cell, m: Mem) {
    match t
    case Leaf(p) => c == Value(p)
    case Text(s) => c.StrCell? && TextAt(m.blocks, c.ref, s)
    case Node(table, entries) =>
      && c.NodeCell? && c.table == table && c.size == |entries|
      && if entries == [] then c.ptr == 0 else Store(m.blocks, c.ptr, |entries|)
  }

  lemma InitHolds(t: Tree, m: Mem)
    requires Sound(m)
    ensures var (after, c) := Init(t, m);
      Grown(m, after, 0) && Opened(t, c, after) && multiset(CellOwned(c)) == Range(m.next, after.next)
  {
    hide Range, Alloc, Grown, Dup;
    match t {
      case Leaf(_) => NothingGrows(m);
      case Text(s) => DupHolds(s, m);
      case Node(_, entries) => AllocGrows(m, SlotsBlock(NilSlots(|entries|))); NothingGrows(m);
    }
  }

  /** The store at `ptr` has `n` elements, of which `i` and those behind `k` are as they were. */
  ghost predicate Kin(m: Mem, after: Mem, ptr: nat, n: nat, i: nat, k: nat) {
    && Store(m.blocks, ptr, n) && Store(after.blocks, ptr, n) && i <= k <= n
    && after.blocks[ptr].slots[..i] == m.blocks[ptr].slots[..i]
    && after.blocks[ptr].slots[k..] == m.blocks[ptr].slots[k..]
  }

  lemma {:induction false} FillTreeHolds(t: Tree, c: Cell, m: Mem)
    requires Sound(m) && Opened(t, c, m)
    ensures var after := FillTree(t, c, m);
      && Grown(m, after, if c.NodeCell? then c.ptr else 0) && Holds(after.blocks, c, t)
      && multiset(Owned(after.blocks, c, t)) == multiset(CellOwned(c)) + Range(m.next, after.next)
    decreases t, 1
  {
    if t.Node? && t.entries != [] {
      FillFromHolds(t.entries, c.ptr, 0, m);
      var after := FillTree(t, c, m);
      assert after.blocks[c.ptr].slots[0..] == after.blocks[c.ptr].slots;
    }
  }

  lemma {:induction false} FillFromHolds(rest: seq<Entry>, ptr: nat, i: nat, m: Mem)
    requires Sound(m) && Store(m.blocks, ptr, i + |rest|)
    ensures var after := FillFrom(rest, ptr, i, m);
      && Grown(m, after, ptr) && Kin(m, after, ptr, i + |rest|, i, i + |rest|)
      && HoldsFrom(after.blocks, after.blocks[ptr].slots[i..], rest)
      && multiset(OwnedFrom(after.blocks, after.blocks[ptr].slots[i..], rest)) == Range(m.next, after.next)
    decreases rest, 0
  {
    hide Holds, HoldsEntry, Owned, OwnedEntry, FillEntry, FillTree, Range;
    if rest != [] {
      FillEntryHolds(rest[0], ptr, i, i + |rest|, m);
      var m1 := FillEntry(rest[0], ptr, i, m);
      FillFromHolds(rest[1..], ptr, i + 1, m1);
      var m2 := FillFrom(rest[1..], ptr, i + 1, m1);
      var slots := m2.blocks[ptr].slots;
      assert slots[i] == slots[..i + 1][i] == m1.blocks[ptr].slots[..i + 1][i] == m1.blocks[ptr].slots[i];
      assert Kept(m1.blocks, m2.blocks, OwnedEntry(m1.blocks, slots[i], rest[0])) by {
        forall a | a in OwnedEntry(m1.blocks, slots[i], rest[0]) ensures m.next <= a < m1.next {
          assert a in multiset(OwnedEntry(m1.blocks, slots[i], rest[0]));
        }
      }
      HoldsEntryStays(m1.blocks, m2.blocks, slots[i], rest[0]);
      assert slots[i..][0] == slots[i] && slots[i..][1..] == slots[i + 1..];
      assert slots[..i] == slots[..i + 1][..i] == m1.blocks[ptr].slots[..i];
      RangeParts(m.next, m1.next, m2.next);
    }
  }

  /** Both blocks, if the cell or key names one, are older than `next` and not before `first`. */
  lemma InRange(s: seq<nat>, first: nat, next: nat)
    requires multiset(s) <= Range(first, next)
    ensures forall a :: a in s ==> first <= a < next
  {
    hide Range;
    forall a | a in s ensures first <= a < next { assert a in multiset(s); }
  }

  lemma InitEntryHolds(e: Entry, ptr: nat, i: nat, n: nat, m: Mem)
    requires Sound(m) && Store(m.blocks, ptr, n) && i < n
    ensures var (after, cell) := InitEntry(e, ptr, i, m);
      && Grown(m, after, ptr) && Kin(m, after, ptr, n, i, i + 1)
      && after.blocks[ptr].slots[i].value == cell && TextAt(after.blocks, after.blocks[ptr].slots[i].key, e.key)
      && Opened(e.value, cell, after)
      && multiset(TextOwned(after.blocks[ptr].slots[i].key)) + multiset(CellOwned(cell)) == Range(m.next, after.next)
  {
    hide Dup, Init, Range;
    var (m1, key) := Dup(e.key, m);
    DupHolds(e.key, m);
    var (m2, cell) := Init(e.value, m1);
    InitHolds(e.value, m1);
    InRange(TextOwned(key), m.next, m1.next);
    InRange(CellOwned(cell), m1.next, m2.next);
    RangeParts(m.next, m1.next, m2.next);
    assert e.key.Some? ==> key.ptr in TextOwned(key);
    assert e.value.Text? && e.value.s.Some? ==> cell.ref.ptr in CellOwned(cell);
    assert cell.NodeCell? && cell.ptr != 0 ==> cell.ptr in CellOwned(cell);
  }

  lemma {:induction false} FillEntryHolds(e: Entry, ptr: nat, i: nat, n: nat, m: Mem)
    requires Sound(m) && Store(m.blocks, ptr, n) && i < n
    ensures var after := FillEntry(e, ptr, i, m);
      && Grown(m, after, ptr) && Kin(m, after, ptr, n, i, i + 1)
      && HoldsEntry(after.blocks, after.blocks[ptr].slots[i], e)
      && multiset(OwnedEntry(after.blocks, after.blocks[ptr].slots[i], e)) == Range(m.next, after.next)
    decreases e, 2
  {
    hide Holds, Owned, FillTree, InitEntry, Range, Opened;
    var (m1, cell) := InitEntry(e, ptr, i, m);
    InitEntryHolds(e, ptr, i, n, m);
    FillTreeHolds(e.value, cell, m1);
    var m2 := FillTree(e.value, cell, m1);
    var key := m1.blocks[ptr].slots[i].key;
    InRange(TextOwned(key), m.next, m1.next);
    InRange(CellOwned(cell), m.next, m1.next);
    assert cell.NodeCell? && cell.ptr != 0 ==> cell.ptr in CellOwned(cell);
    assert e.key.Some? ==> key.ptr in TextOwned(key);
    assert key.ptr != 0 && cell.NodeCell? ==> key.ptr != cell.ptr by { Apart(key, cell, m.next, m1.next); }
    RangeParts(m.next, m1.next, m2.next);
  }

  /** A key and a store that are each handed out once are not the same block. */
  lemma Apart(key: StrRef, cell: Cell, first: nat, next: nat)
    requires multiset(TextOwned(key)) + multiset(CellOwned(cell)) == Range(first, next)
    ensures key.ptr != 0 && cell.NodeCell? ==> key.ptr != cell.ptr
  {
    hide Range;
    if key.ptr != 0 && cell.NodeCell? && cell.ptr != 0 {
      assert multiset(TextOwned(key)) == multiset{key.ptr} && multiset(CellOwned(cell)) == multiset{cell.ptr};
      assert (multiset{key.ptr} + multiset{cell.ptr})[key.ptr] <= 1;
    }
  }

  /**
   api_copy_object: the copy holds the same tree; its allocations, each owned once, are exactly the new blocks of the
   heap, and every older block, the source's among them, is untouched.
   */
  lemma CopyIsFresh(t: Tree, m: Mem)
    requires Sound(m)
    ensures var (after, c) := Copy(t, m);
      && Holds(after.blocks, c, t)
      && multiset(Owned(after.blocks, c, t)) == Range(m.next, after.next)
      && Grown(m, after, 0)
  {
    var (m1, c) := Init(t, m);
    InitHolds(t, m);
    FillTreeHolds(t, c, m1);
    RangeParts(m.next, m1.next, Copy(t, m).0.next);
    if c.NodeCell? && c.ptr != 0 { assert c.ptr in multiset(CellOwned(c)); }
  }

  lemma ValueWritten(ptr: nat, i: nat, n: nat, m: Mem, m1: Mem, c: Cell)
    requires Sound(m) && Store(m.blocks, ptr, n) && i < n && Grown(m, m1, 0)
    ensures var after := PutValue(m1, ptr, i, c);
      && Grown(m, after, ptr) && Kin(m, after, ptr, n, i, i + 1) && after.next == m1.next
      && after.blocks[ptr].slots[i] == m.blocks[ptr].slots[i].(value := c)
      && forall a :: a in m1.blocks && a != ptr ==> a in after.blocks && after.blocks[a] == m1.blocks[a]
  {
  }

  // ----- what holds a tree -----

  /** A cell holds at most one tree, so two cells that hold the same tree have equal contents throughout. */
  lemma {:induction false} HoldsOneTree(blocks: map<nat, Block>, c: Cell, t: Tree, u: Tree)
    requires Holds(blocks, c, t) && Holds(blocks, c, u)
    ensures t == u
    decreases t, 1
  {
    if t.Node? { HoldsFromOne(blocks, if t.entries == [] then [] else blocks[c.ptr].slots, t.entries, u.entries); }
  }

  lemma {:induction false} HoldsFromOne(blocks: map<nat, Block>, slots: seq<Slot>, rest: seq<Entry>, other: seq<Entry>)
    requires HoldsFrom(blocks, slots, rest) && HoldsFrom(blocks, slots, other)
    ensures rest == other
    decreases rest, 0
  {
    if rest != [] {
      HoldsEntryOne(blocks, slots[0], rest[0], other[0]);
      HoldsFromOne(blocks, slots[1..], rest[1..], other[1..]);
      assert rest == [rest[0]] + rest[1..] && other == [other[0]] + other[1..];
    }
  }

  lemma {:induction false} HoldsEntryOne(blocks: map<nat, Block>, slot: Slot, e: Entry, other: Entry)
    requires HoldsEntry(blocks, slot, e) && HoldsEntry(blocks, slot, other)
    ensures e == other
    decreases e, 2
  {
    HoldsOneTree(blocks, slot.value, e.value, other.value);
  }

  /** What a tree owns is live. */
  lemma {:induction false} OwnedIsLive(blocks: map<nat, Block>, c: Cell, t: Tree)
    requires Holds(blocks, c, t)
    ensures Kept(blocks, blocks, Owned(blocks, c, t))
    decreases t, 1
  {
    if t.Node? && t.entries != [] { OwnedFromIsLive(blocks, blocks[c.ptr].slots, t.entries); }
  }

  lemma {:induction false} OwnedFromIsLive(blocks: map<nat, Block>, slots: seq<Slot>, rest: seq<Entry>)
    requires HoldsFrom(blocks, slots, rest)
    ensures Kept(blocks, blocks, OwnedFrom(blocks, slots, rest))
    decreases rest, 0
  {
    if rest != [] {
      OwnedEntryIsLive(blocks, slots[0], rest[0]);
      OwnedFromIsLive(blocks, slots[1..], rest[1..]);
    }
  }

  lemma {:induction false} OwnedEntryIsLive(blocks: map<nat, Block>, slot: Slot, e: Entry)
    requires HoldsEntry(blocks, slot, e)
    ensures Kept(blocks, blocks, OwnedEntry(blocks, slot, e))
    decreases e, 2
  {
    OwnedIsLive(blocks, slot.value, e.value);
  }

  // ----- release -----

  /** No address twice. */
  ghost predicate Distinct(s: seq<nat>) { forall a :: multiset(s)[a] <= 1 }

  /** The heap once these blocks are released. */
  function Without(blocks: map<nat, Block>, released: seq<nat>): map<nat, Block> {
    map a | a in blocks && a !in released :: blocks[a]
  }

  /** A copy that is released again leaves the heap as it was: nothing leaks and nothing else is released. */
  lemma CopyThenFree(t: Tree, m: Mem)
    requires Sound(m)
    ensures var (after, c) := Copy(t, m);
      && Holds(after.blocks, c, t) && Distinct(Owned(after.blocks, c, t))
      && Without(after.blocks, Owned(after.blocks, c, t)) == m.blocks
  {
    hide Copy, Holds, Owned, Range;
    var (after, c) := Copy(t, m);
    CopyIsFresh(t, m);
    var owned := Owned(after.blocks, c, t);
    forall a ensures a in owned <==> m.next <= a < after.next { assert a in owned <==> a in multiset(owned); }
    assert Without(after.blocks, owned) == m.blocks;
  }

  /** A tree that shares no block with a released one still holds. */
  lemma ReleaseKeepsOthers(blocks: map<nat, Block>, released: seq<nat>, c: Cell, t: Tree)
    requires Holds(blocks, c, t) && forall a :: a in Owned(blocks, c, t) ==> a !in released
    ensures Holds(Without(blocks, released), c, t)
  {
    hide Holds, Owned;
    OwnedIsLive(blocks, c, t);
    HoldsStays(blocks, Without(blocks, released), c, t);
  }

  /** A copy and the tree it was made from share no block: releasing either one leaves the other whole. */
  lemma CopiesAreIndependent(src: Cell, t: Tree, m: Mem)
    requires Sound(m) && Holds(m.blocks, src, t)
    ensures var (after, c) := Copy(t, m);
      && Holds(after.blocks, c, t) && Holds(after.blocks, src, t)
      && Holds(Without(after.blocks, Owned(after.blocks, c, t)), src, t)
      && Holds(Without(after.blocks, Owned(after.blocks, src, t)), c, t)
  {
    hide Copy, Holds, Owned, Range, Without;
    var (after, c) := Copy(t, m);
    CopyIsFresh(t, m);
    OwnedIsLive(m.blocks, src, t);
    HoldsStays(m.blocks, after.blocks, src, t);
    InRange(Owned(after.blocks, c, t), m.next, after.next);
    assert Owned(after.blocks, src, t) == Owned(m.blocks, src, t);
    ReleaseKeepsOthers(after.blocks, Owned(after.blocks, c, t), src, t);
    ReleaseKeepsOthers(after.blocks, Owned(after.blocks, src, t), c, t);
  }
}
