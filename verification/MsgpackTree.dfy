/**
 The memory of the decoder of src/mua/msgpack.c: what the slots hold between any two steps, as a tree, and that this
 tree is held by the root and owns exactly what has been allocated.
 */
module MsgpackTree {
  import opened Bytes
  import opened MsgpackSpec
  import opened MsgpackReader
  import opened TreeSpec
  import opened TreeLaws
  import opened Heap

  // ----- decoded values as trees -----

  /** The number that a decoded double is. */
  type Cast = Double -> Num

  /** A string of no bytes has no data. */
  function TextOf(s: bytes): Option<bytes> { if s == [] then None else Some(s) }

  ghost function TreeOf(o: Obj, cast: Cast): Tree {
    match o
    case Bool(b) => Leaf(Boolean(b))
    case Int(i) => Leaf(Integer(i))
    case Float(f) => Leaf(Floating(cast(f)))
    case Str(s) => Text(TextOf(s))
    case Arr(items) => Node(false, seq(|items|, i requires 0 <= i < |items| => Entry(None, TreeOf(items[i], cast))))
    case Dict(pairs) =>
      Node(true, seq(|pairs|, i requires 0 <= i < |pairs| => Entry(TextOf(pairs[i].key), TreeOf(pairs[i].value, cast))))
    case _ => Leaf(TreeSpec.Nil)
  }

  // ----- what the open containers hold -----

  function NilEntries(n: nat): (entries: seq<Entry>)
    ensures |entries| == n && forall i :: 0 <= i < n ==> entries[i] == Entry(None, Leaf(TreeSpec.Nil))
  {
    seq(n, _ => Entry(None, Leaf(TreeSpec.Nil)))
  }

  /** A container that has just been opened. */
  function Blank(f: DecFrame): Tree { Node(f.container == Map, NilEntries(f.count)) }

  function KeyOf(f: DecFrame, i: nat): Option<bytes>
    requires f.container == Map ==> i < |f.keys|
  {
    if f.container == Map then TextOf(f.keys[i]) else None
  }

  /** The elements read so far. */
  ghost function Done(f: DecFrame, cast: Cast): seq<Entry>
    requires FrameOk(f)
  {
    seq(|f.values|, i requires 0 <= i < |f.values| => Entry(KeyOf(f, i), TreeOf(f.values[i], cast)))
  }

  /** The container with `t` for the element that is being read. */
  ghost function Around(f: DecFrame, t: Tree, cast: Cast): Tree
    requires WantsValue(f)
  {
    Node(f.container == Map, Done(f, cast) + [Entry(KeyOf(f, |f.values|), t)] + NilEntries(f.count - |f.values| - 1))
  }

  /** The innermost container between two steps: the elements read, perhaps one more key, and Nil for the rest. */
  ghost function Top(f: DecFrame, cast: Cast): Tree
    requires FrameOk(f)
  {
    if WantsValue(f) then Around(f, Leaf(TreeSpec.Nil), cast)
    else Node(f.container == Map, Done(f, cast) + NilEntries(f.count - |f.values|))
  }

  /** The tree around `t`, which the innermost of these frames is reading. */
  ghost function Whole(fs: seq<DecFrame>, t: Tree, cast: Cast): Tree
    requires BelowOk(fs)
    decreases |fs|
  {
    if fs == [] then t else Whole(fs[..|fs| - 1], Around(fs[|fs| - 1], t, cast), cast)
  }

  /** The partly decoded tree. */
  ghost function Part(fs: seq<DecFrame>, cast: Cast): Tree
    requires fs != [] && StackOk(fs)
  {
    Whole(fs[..|fs| - 1], Top(fs[|fs| - 1], cast), cast)
  }

  // ----- the memory, in the order in which it is written -----

  /** A value's slot is written: the output's, or that of the element which the innermost frame is reading. */
  ghost function Slotted(fs: seq<DecFrame>, t: Tree, before: Mem, cast: Cast): (Mem, Cell)
    requires BelowOk(fs)
    decreases |fs|, 1
  {
    if fs == [] then Init(t, before)
    else
      var (m, up) := Laid(fs, before, cast);
      var (after, c) := Init(t, m);
      (PutValue(after, StorePtr(up), |fs[|fs| - 1].values|, c), c)
  }

  /** The memory with these containers open, and the cell of the innermost one. */
  ghost function Laid(fs: seq<DecFrame>, before: Mem, cast: Cast): (Mem, Cell)
    requires fs != [] && StackOk(fs)
    decreases |fs|, 0
  {
    var f := fs[|fs| - 1];
    var (m, c) := Slotted(fs[..|fs| - 1], Blank(f), before, cast);
    (Keyed(f, StorePtr(c), FillFrom(Done(f, cast), StorePtr(c), 0, m)), c)
  }

  /** A key whose value is awaited. */
  ghost function Keyed(f: DecFrame, ptr: nat, m: Mem): Mem {
    if Awaiting(f) then
      var (after, ref) := Dup(TextOf(f.keys[|f.values|]), m);
      PutKey(after, ptr, |f.values|, ref)
    else m
  }

  /** The output's cell. */
  ghost function Root(fs: seq<DecFrame>, before: Mem): Cell
    requires fs != []
  {
    Init(Blank(fs[0]), before).1
  }

  // ----- filling a store in two goes -----

  lemma {:induction false} FillConcat(a: seq<Entry>, b: seq<Entry>, ptr: nat, i: nat, m: Mem)
    ensures FillFrom(a + b, ptr, i, m) == FillFrom(b, ptr, i + |a|, FillFrom(a, ptr, i, m))
    decreases |a|
  {
    hide FillEntry;
    if a == [] {
      assert a + b == b;
    } else {
      assert (a + b)[1..] == a[1..] + b;
      FillConcat(a[1..], b, ptr, i + 1, FillEntry(a[0], ptr, i, m));
    }
  }

  lemma {:induction false} FillKeeps(rest: seq<Entry>, ptr: nat, i: nat, n: nat, m: Mem)
    requires Sound(m) && Store(m.blocks, ptr, n) && i + |rest| <= n
    ensures var after := FillFrom(rest, ptr, i, m);
      Grown(m, after, ptr) && Kin(m, after, ptr, n, i, i + |rest|)
    decreases |rest|
  {
    hide FillEntry, HoldsEntry, Range;
    if rest != [] {
      FillEntryHolds(rest[0], ptr, i, n, m);
      var m1 := FillEntry(rest[0], ptr, i, m);
      FillKeeps(rest[1..], ptr, i + 1, n, m1);
      var m2 := FillFrom(rest[1..], ptr, i + 1, m1);
      assert m2.blocks[ptr].slots[..i] == m2.blocks[ptr].slots[..i + 1][..i] == m1.blocks[ptr].slots[..i];
      assert m1.blocks[ptr].slots[i + |rest|..] == m1.blocks[ptr].slots[i + 1..][|rest| - 1..]
        == m.blocks[ptr].slots[i + 1..][|rest| - 1..] == m.blocks[ptr].slots[i + |rest|..];
    }
  }

  /** A container with room for `n` elements, blank from the `i`th on. */
  ghost predicate Ready(m: Mem, c: Cell, n: nat, i: nat) {
    && Sound(m) && c.NodeCell? && c.size == n && (n == 0 ==> c.ptr == 0)
    && (n > 0 ==> Store(m.blocks, c.ptr, n) && forall j :: i <= j < n ==> m.blocks[c.ptr].slots[j] == NIL_SLOT)
  }

  lemma {:induction false} NilsChangeNothing(n: nat, ptr: nat, i: nat, m: Mem)
    requires n > 0 ==> Store(m.blocks, ptr, i + n) && forall j :: i <= j < i + n ==> m.blocks[ptr].slots[j] == NIL_SLOT
    ensures FillFrom(NilEntries(n), ptr, i, m) == m
    decreases n
  {
    if n > 0 {
      var nil := Entry(None, Leaf(TreeSpec.Nil));
      assert m.blocks[ptr].slots[i := NIL_SLOT] == m.blocks[ptr].slots;
      assert FillEntry(nil, ptr, i, m) == m;
      assert NilEntries(n)[0] == nil && NilEntries(n)[1..] == NilEntries(n - 1);
      NilsChangeNothing(n - 1, ptr, i + 1, m);
    }
  }

  // ----- the open stores -----

  /** The innermost container: blank behind the elements read, but for a key whose value is awaited. */
  ghost predicate Fillable(m: Mem, c: Cell, f: DecFrame) {
    && Ready(m, c, f.count, |f.values| + if Awaiting(f) then 1 else 0)
    && (|f.values| < f.count ==> m.blocks[c.ptr].slots[|f.values|].value == Value(TreeSpec.Nil))
  }

  lemma BlankReady(f: DecFrame, m: Mem)
    requires Sound(m)
    ensures var (after, c) := Init(Blank(f), m);
      && Grown(m, after, 0) && Ready(after, c, f.count, 0) && (f.count > 0 ==> c.ptr >= m.next)
  {
    hide Range;
    InitHolds(Blank(f), m);
  }

  lemma Keys(f: DecFrame, c: Cell, m: Mem)
    requires FrameOk(f) && Ready(m, c, f.count, |f.values|)
    ensures var after := Keyed(f, StorePtr(c), m); Fillable(after, c, f) && Grown(m, after, StorePtr(c))
  {
    hide Range;
    if Awaiting(f) { DupHolds(TextOf(f.keys[|f.values|]), m); }
  }

  lemma DoneReady(done: seq<Entry>, c: Cell, n: nat, m: Mem)
    requires Ready(m, c, n, 0) && |done| <= n
    ensures var after := FillFrom(done, StorePtr(c), 0, m);
      Ready(after, c, n, |done|) && Grown(m, after, StorePtr(c))
  {
    hide FillFrom;
    if n > 0 {
      FillKeeps(done, c.ptr, 0, n, m);
      var after := FillFrom(done, c.ptr, 0, m);
      forall j | |done| <= j < n ensures after.blocks[c.ptr].slots[j] == NIL_SLOT {
        assert after.blocks[c.ptr].slots[j] == after.blocks[c.ptr].slots[|done|..][j - |done|];
        assert m.blocks[c.ptr].slots[j] == m.blocks[c.ptr].slots[|done|..][j - |done|];
      }
    } else {
      NothingDone(done, StorePtr(c), m);
    }
  }

  lemma NothingDone(done: seq<Entry>, ptr: nat, m: Mem)
    requires done == []
    ensures FillFrom(done, ptr, 0, m) == m
  {
  }

  lemma SlotWritten(m: Mem, up: Cell, f: DecFrame, t: Tree)
    requires WantsValue(f) && Fillable(m, up, f)
    ensures var (m1, c) := Init(t, m);
      var after := PutValue(m1, up.ptr, |f.values|, c);
      && Grown(m, after, up.ptr) && Opened(t, c, after)
      && (c.NodeCell? && c.ptr != 0 ==> c.ptr >= m.next)
      && Kin(m, after, up.ptr, f.count, |f.values|, |f.values| + 1)
      && after.blocks[up.ptr].slots[|f.values|] == m.blocks[up.ptr].slots[|f.values|].(value := c)
  {
    hide Range, Init;
    var (m1, c) := Init(t, m);
    InitHolds(t, m);
    ValueWritten(up.ptr, |f.values|, f.count, m, m1, c);
    InRange(CellOwned(c), m.next, m1.next);
    if c.NodeCell? && c.ptr != 0 { assert c.ptr in CellOwned(c); }
    if t.Text? && t.s.Some? { assert c.ref.ptr in CellOwned(c); }
  }

  /** A container that has been opened in its slot. */
  lemma {:induction false} BlankSlotted(fs: seq<DecFrame>, f: DecFrame, before: Mem, cast: Cast)
    requires BelowOk(fs) && Sound(before)
    ensures var (m, c) := Slotted(fs, Blank(f), before, cast);
      Grown(before, m, 0) && Ready(m, c, f.count, 0) && (f.count > 0 ==> c.ptr >= before.next)
    decreases |fs|, 1
  {
    hide Init, Blank, Laid, Fillable, Kin;
    if fs == [] {
      BlankReady(f, before);
    } else {
      var (m, up) := Laid(fs, before, cast);
      LaidReady(fs, before, cast);
      BlankReady(f, m);
      SlotWritten(m, up, fs[|fs| - 1], Blank(f));
      FillableStore(m, up, fs[|fs| - 1]);
      var (m1, c) := Init(Blank(f), m);
      var after := PutValue(m1, up.ptr, |fs[|fs| - 1].values|, c);
      GrownOn(before, m, after, up.ptr);
      assert c.ptr != up.ptr ==> Ready(after, c, f.count, 0);
    }
  }

  lemma FillableStore(m: Mem, c: Cell, f: DecFrame)
    requires Fillable(m, c, f)
    ensures Sound(m) && c.NodeCell? && StorePtr(c) == c.ptr && (f.count > 0 ==> Store(m.blocks, c.ptr, f.count))
    ensures f.count > 0 ==> c.ptr < m.next
  {
  }

  /** The memory at any moment: older blocks untouched, the innermost container ready for what comes next. */
  lemma {:induction false} LaidReady(fs: seq<DecFrame>, before: Mem, cast: Cast)
    requires fs != [] && StackOk(fs) && Sound(before)
    ensures var (m, c) := Laid(fs, before, cast);
      var f := fs[|fs| - 1];
      Grown(before, m, 0) && Fillable(m, c, f) && (f.count > 0 ==> c.ptr >= before.next)
    decreases |fs|, 0
  {
    hide Slotted, Fillable, FillFrom, Keyed, Blank, Done;
    var f := fs[|fs| - 1];
    BlankSlotted(fs[..|fs| - 1], f, before, cast);
    var (m, c) := Slotted(fs[..|fs| - 1], Blank(f), before, cast);
    DoneSize(f, cast);
    DoneReady(Done(f, cast), c, f.count, m);
    var m1 := FillFrom(Done(f, cast), StorePtr(c), 0, m);
    GrownOn(before, m, m1, c.ptr);
    Keys(f, c, m1);
    GrownOn(before, m1, Keyed(f, StorePtr(c), m1), c.ptr);
  }

  lemma DoneSize(f: DecFrame, cast: Cast)
    requires FrameOk(f)
    ensures |Done(f, cast)| == |f.values| <= f.count
  {
  }

  // ----- one more element -----

  /** Writing the key first and the value later comes to the same as initializing the element at once. */
  lemma KeyThenValue(key: Option<bytes>, t: Tree, ptr: nat, i: nat, n: nat, m: Mem)
    requires Sound(m) && Store(m.blocks, ptr, n) && i < n && m.blocks[ptr].slots[i] == NIL_SLOT
    ensures var (m1, ref) := Dup(key, m);
      var (m2, c) := Init(t, PutKey(m1, ptr, i, ref));
      (PutValue(m2, ptr, i, c), c) == InitEntry(Entry(key, t), ptr, i, m)
  {
    hide NilSlots;
    var (m1, ref) := Dup(key, m);
    var keyed := PutKey(m1, ptr, i, ref);
    var (m2, c) := Init(t, keyed);
    var (direct, d) := Init(t, m1);
    assert d == c;
    var slots := m.blocks[ptr].slots;
    assert slots[i := Slot(ref, Value(TreeSpec.Nil))][i := Slot(ref, c)] == slots[i := Slot(ref, c)];
    assert PutValue(m2, ptr, i, c).blocks == Put(direct, ptr, i, Slot(ref, c)).blocks;
  }

  /** The memory before the key of the awaited value. */
  ghost function Read(fs: seq<DecFrame>, before: Mem, cast: Cast): (Mem, Cell)
    requires fs != [] && StackOk(fs)
  {
    var f := fs[|fs| - 1];
    var (m, c) := Slotted(fs[..|fs| - 1], Blank(f), before, cast);
    (FillFrom(Done(f, cast), StorePtr(c), 0, m), c)
  }

  lemma ReadReady(fs: seq<DecFrame>, before: Mem, cast: Cast)
    requires fs != [] && StackOk(fs) && Sound(before)
    ensures var (m, c) := Read(fs, before, cast);
      var f := fs[|fs| - 1];
      && Grown(before, m, 0) && Ready(m, c, f.count, |f.values|)
      && Laid(fs, before, cast) == (Keyed(f, StorePtr(c), m), c)
  {
    hide Slotted, FillFrom, Keyed, Blank, Done;
    var f := fs[|fs| - 1];
    BlankSlotted(fs[..|fs| - 1], f, before, cast);
    var (m, c) := Slotted(fs[..|fs| - 1], Blank(f), before, cast);
    DoneSize(f, cast);
    DoneReady(Done(f, cast), c, f.count, m);
    GrownOn(before, m, FillFrom(Done(f, cast), StorePtr(c), 0, m), c.ptr);
  }

  /** The awaited element, its key already there, is initialized. */
  lemma EntrySlotted(fs: seq<DecFrame>, t: Tree, before: Mem, cast: Cast)
    requires fs != [] && BelowOk(fs) && StackOk(fs) && Sound(before)
    ensures var f := fs[|fs| - 1];
      var (m, up) := Read(fs, before, cast);
      Slotted(fs, t, before, cast) == InitEntry(Entry(KeyOf(f, |f.values|), t), StorePtr(up), |f.values|, m)
  {
    hide Read, Laid, InitEntry, Init, Dup, TextOf, PutValue;
    var f := fs[|fs| - 1];
    var (m, up) := Read(fs, before, cast);
    ReadReady(fs, before, cast);
    KeyThenValue(KeyOf(f, |f.values|), t, up.ptr, |f.values|, f.count, m);
    NoKey(m, up.ptr, |f.values|, f.count);
    NullText(m);
  }

  lemma NullText(m: Mem)
    ensures Dup(None, m) == (m, NO_TEXT)
  {
  }

  lemma NoKey(m: Mem, ptr: nat, i: nat, n: nat)
    requires Store(m.blocks, ptr, n) && i < n && m.blocks[ptr].slots[i] == NIL_SLOT
    ensures PutKey(m, ptr, i, NO_TEXT) == m
  {
    assert m.blocks[ptr].slots[i := NIL_SLOT] == m.blocks[ptr].slots;
  }

  /** The same frames with another one on top. */
  lemma SameBelow(fs: seq<DecFrame>, g: DecFrame)
    requires fs != []
    ensures WithTop(fs, g)[..|fs| - 1] == fs[..|fs| - 1] && WithTop(fs, g)[|fs| - 1] == g && |WithTop(fs, g)| == |fs|
  {
  }

  /** A finished value becomes an element. */
  lemma Plugged(fs: seq<DecFrame>, v: Obj, before: Mem, cast: Cast)
    requires fs != [] && BelowOk(fs) && StackOk(fs) && Sound(before)
    ensures var f := fs[|fs| - 1];
      var (m, c) := Slotted(fs, TreeOf(v, cast), before, cast);
      && StackOk(WithTop(fs, Plug(f, v)))
      && Laid(WithTop(fs, Plug(f, v)), before, cast)
         == (FillTree(TreeOf(v, cast), c, m), Laid(fs, before, cast).1)
  {
    hide InitEntry, FillTree, TreeOf, Slotted, Blank, Done, FillFrom, Ready, Grown;
    var f := fs[|fs| - 1];
    var g, t := Plug(f, v), TreeOf(v, cast);
    var e := Entry(KeyOf(f, |f.values|), t);
    var (m, up) := Read(fs, before, cast);
    SameBelow(fs, g);
    ReadReady(fs, before, cast);
    EntrySlotted(fs, t, before, cast);
    DonePlus(f, v, cast);
    DoneSize(f, cast);
    var (m0, _) := Slotted(fs[..|fs| - 1], Blank(f), before, cast);
    FillConcat(Done(f, cast), [e], StorePtr(up), 0, m0);
    FillOne(e, StorePtr(up), |f.values|, m);
    assert Blank(g) == Blank(f) by { SameBlank(f, g); }
  }

  lemma DonePlus(f: DecFrame, v: Obj, cast: Cast)
    requires WantsValue(f)
    ensures Done(Plug(f, v), cast) == Done(f, cast) + [Entry(KeyOf(f, |f.values|), TreeOf(v, cast))]
  {
    hide TreeOf;
  }

  lemma SameBlank(f: DecFrame, g: DecFrame)
    requires f.container == g.container && f.count == g.count
    ensures Blank(f) == Blank(g)
  {
  }

  lemma FillOne(e: Entry, ptr: nat, i: nat, m: Mem)
    ensures var (after, c) := InitEntry(e, ptr, i, m); FillFrom([e], ptr, i, m) == FillTree(e.value, c, after)
  {
    hide InitEntry, FillTree;
    var m1 := FillEntry(e, ptr, i, m);
    assert FillFrom([e], ptr, i, m) == FillFrom([e][1..], ptr, i + 1, m1) == m1;
  }

  // ----- the steps of the decoder -----

  /** A key is read. */
  lemma KeyLaid(fs: seq<DecFrame>, key: bytes, before: Mem, cast: Cast)
    requires fs != [] && StackOk(fs) && Sound(before)
    requires var f := fs[|fs| - 1]; f.container == Map && !Awaiting(f) && |f.values| < f.count
    ensures var f := fs[|fs| - 1];
      var g := f.(keys := f.keys + [key]);
      var (m, c) := Laid(fs, before, cast);
      var (m1, ref) := Dup(TextOf(key), m);
      && StackOk(WithTop(fs, g))
      && Laid(WithTop(fs, g), before, cast) == (PutKey(m1, StorePtr(c), |f.values|, ref), c)
  {
    hide Slotted, FillFrom, Blank, Dup, TextOf;
    var f := fs[|fs| - 1];
    var g := f.(keys := f.keys + [key]);
    SameBelow(fs, g);
    SameBlank(f, g);
    assert Done(g, cast) == Done(f, cast);
  }

  /** A container is opened. */
  lemma OpenLaid(fs: seq<DecFrame>, container: Container, count: nat, before: Mem, cast: Cast)
    requires BelowOk(fs)
    ensures var g := OpenFrame(container, count);
      StackOk(fs + [g]) && Laid(fs + [g], before, cast) == Slotted(fs, Blank(g), before, cast)
  {
    hide Slotted, Blank;
    var g := OpenFrame(container, count);
    assert (fs + [g])[..|fs|] == fs;
    var (m, c) := Slotted(fs, Blank(g), before, cast);
    NothingDone(Done(g, cast), StorePtr(c), m);
  }

  /** Slots are written alike for trees that look alike from outside. */
  lemma SameSlot(fs: seq<DecFrame>, f: DecFrame, t: Tree, before: Mem, cast: Cast)
    requires BelowOk(fs) && t.Node? && t.table == (f.container == Map) && |t.entries| == f.count
    ensures Slotted(fs, t, before, cast) == Slotted(fs, Blank(f), before, cast)
  {
    hide Laid;
    assert forall m :: Init(t, m) == Init(Blank(f), m);
  }

  /** A full container is the tree of what has been built. */
  lemma BuiltTree(f: DecFrame, cast: Cast)
    requires FrameOk(f) && |f.values| == f.count
    ensures TreeOf(Built(f), cast) == Node(f.container == Map, Done(f, cast)) == Top(f, cast)
  {
    assert Done(f, cast) + NilEntries(0) == Done(f, cast);
    if f.container == Map {
      var pairs := Zip(f.keys, f.values);
      assert TreeOf(Dict(pairs), cast).entries == Done(f, cast);
    } else {
      assert TreeOf(Arr(f.values), cast).entries == Done(f, cast);
    }
  }

  /** Filling a full container's slot is what its frame has done. */
  lemma FullLaid(fs: seq<DecFrame>, before: Mem, cast: Cast)
    requires fs != [] && StackOk(fs) && |fs[|fs| - 1].values| == fs[|fs| - 1].count
    ensures var f, below := fs[|fs| - 1], fs[..|fs| - 1];
      var t := TreeOf(Built(f), cast);
      var (m, c) := Slotted(below, t, before, cast);
      Laid(fs, before, cast) == (FillTree(t, c, m), c)
  {
    hide Slotted, Built, TreeOf, Done, Blank, FillFrom;
    var f, below := fs[|fs| - 1], fs[..|fs| - 1];
    BuiltTree(f, cast);
    DoneSize(f, cast);
    SameSlot(below, f, TreeOf(Built(f), cast), before, cast);
    var (m, c) := Slotted(below, Blank(f), before, cast);
    SlottedNode(below, f, before, cast);
  }

  lemma SlottedNode(fs: seq<DecFrame>, f: DecFrame, before: Mem, cast: Cast)
    requires BelowOk(fs)
    ensures Slotted(fs, Blank(f), before, cast).1.NodeCell?
  {
    hide Laid;
  }

  /** A full container becomes an element of the one below it. */
  lemma PopLaid(fs: seq<DecFrame>, before: Mem, cast: Cast)
    requires |fs| > 1 && StackOk(fs) && Sound(before) && |fs[|fs| - 1].values| == fs[|fs| - 1].count
    ensures var below := fs[..|fs| - 1];
      var g := Plug(below[|below| - 1], Built(fs[|fs| - 1]));
      && StackOk(WithTop(below, g)) && StackOk(below)
      && Laid(WithTop(below, g), before, cast) == (Laid(fs, before, cast).0, Laid(below, before, cast).1)
  {
    hide Slotted, Laid, Built, TreeOf;
    FullLaid(fs, before, cast);
    Plugged(fs[..|fs| - 1], Built(fs[|fs| - 1]), before, cast);
  }

  /** A scalar becomes an element. */
  lemma ScalarLaid(fs: seq<DecFrame>, v: Obj, before: Mem, cast: Cast)
    requires fs != [] && BelowOk(fs) && StackOk(fs) && Sound(before) && !v.Arr? && !v.Dict?
    ensures var f := fs[|fs| - 1];
      && StackOk(WithTop(fs, Plug(f, v)))
      && Laid(WithTop(fs, Plug(f, v)), before, cast)
         == (Slotted(fs, TreeOf(v, cast), before, cast).0, Laid(fs, before, cast).1)
  {
    hide Slotted, Laid;
    Plugged(fs, v, before, cast);
  }

  // ----- the memory is that of a copy of the partly decoded tree -----

  lemma {:induction false} SlottedIsCopy(fs: seq<DecFrame>, t: Tree, before: Mem, cast: Cast)
    requires BelowOk(fs) && Sound(before)
    ensures var (m, c) := Slotted(fs, t, before, cast);
      Copy(Whole(fs, t, cast), before) == (FillTree(t, c, m), if fs == [] then c else Root(fs, before))
    decreases |fs|
  {
    hide Init, FillTree, Slotted, Around, Blank;
    if fs == [] {
      BareSlot(t, before, cast);
    } else {
      var f, below := fs[|fs| - 1], fs[..|fs| - 1];
      var around := Around(f, t, cast);
      SlottedIsCopy(below, around, before, cast);
      AroundFills(fs, t, before, cast);
      SameRoot(below, f, around, before, cast);
    }
  }

  lemma BareSlot(t: Tree, before: Mem, cast: Cast)
    ensures Slotted([], t, before, cast) == Init(t, before)
  {
  }

  lemma SameRoot(fs: seq<DecFrame>, f: DecFrame, t: Tree, before: Mem, cast: Cast)
    requires BelowOk(fs) && t.Node? && t.table == (f.container == Map) && |t.entries| == f.count
    ensures fs == [] ==> Slotted(fs, t, before, cast).1 == Init(Blank(f), before).1
  {
    hide Laid;
  }

  /** Filling the container around an element that is being read: what is done, the element, and Nil for the rest. */
  lemma AroundFills(fs: seq<DecFrame>, t: Tree, before: Mem, cast: Cast)
    requires fs != [] && BelowOk(fs) && StackOk(fs) && Sound(before)
    ensures var f, below := fs[|fs| - 1], fs[..|fs| - 1];
      var around := Around(f, t, cast);
      var (m, c) := Slotted(fs, t, before, cast);
      var (m0, up) := Slotted(below, around, before, cast);
      && FillTree(around, up, m0) == FillTree(t, c, m)
      && around.Node? && around.table == (f.container == Map) && |around.entries| == f.count
  {
    hide Slotted, InitEntry, FillEntry, FillTree, FillFrom, Blank, Done, Range, HoldsEntry, NilEntries, Grown;
    var f, below := fs[|fs| - 1], fs[..|fs| - 1];
    var i, n := |f.values|, f.count;
    var e := Entry(KeyOf(f, i), t);
    var (m2, up) := Read(fs, before, cast);
    DoneSize(f, cast);
    ReadReady(fs, before, cast);
    EntrySlotted(fs, t, before, cast);
    SameSlot(below, f, Around(f, t, cast), before, cast);
    var (m0, _) := Slotted(below, Blank(f), before, cast);
    var done, nils := Done(f, cast), NilEntries(n - i - 1);
    FillConcat(done + [e], nils, up.ptr, 0, m0);
    FillConcat(done, [e], up.ptr, 0, m0);
    FillOne(e, up.ptr, i, m2);
    FillKeeps([e], up.ptr, i, n, m2);
    var m3 := FillFrom([e], up.ptr, i, m2);
    NilsBehind(m2, m3, up.ptr, i, n);
    assert FillFrom((done + [e]) + nils, up.ptr, 0, m0) == m3;
    NodeFills(Around(f, t, cast), up, m0);
  }

  lemma NodeFills(t: Tree, c: Cell, m: Mem)
    requires t.Node? && c.NodeCell?
    ensures FillTree(t, c, m) == FillFrom(t.entries, c.ptr, 0, m)
  {
    hide FillFrom;
  }

  /** The elements behind the one just written are still Nil. */
  lemma NilsBehind(m: Mem, after: Mem, ptr: nat, i: nat, n: nat)
    requires i < n && Kin(m, after, ptr, n, i, i + 1)
    requires forall j :: i <= j < n ==> m.blocks[ptr].slots[j] == NIL_SLOT
    ensures FillFrom(NilEntries(n - i - 1), ptr, i + 1, after) == after
  {
    forall j | i + 1 <= j < n ensures after.blocks[ptr].slots[j] == NIL_SLOT {
      assert after.blocks[ptr].slots[j] == after.blocks[ptr].slots[i + 1..][j - i - 1];
      assert m.blocks[ptr].slots[j] == m.blocks[ptr].slots[i + 1..][j - i - 1];
    }
    NilsChangeNothing(n - i - 1, ptr, i + 1, after);
  }

  /** Between any two steps: the memory and the root are those of a fresh copy of the partly decoded tree. */
  lemma LaidIsCopy(fs: seq<DecFrame>, before: Mem, cast: Cast)
    requires fs != [] && StackOk(fs) && Sound(before)
    ensures Copy(Part(fs, cast), before) == (Laid(fs, before, cast).0, Root(fs, before))
  {
    hide Slotted, Copy, Around, Blank, FillFrom, Init;
    var f, below := fs[|fs| - 1], fs[..|fs| - 1];
    var top := Top(f, cast);
    SlottedIsCopy(below, top, before, cast);
    if WantsValue(f) {
      AroundFills(fs, Leaf(TreeSpec.Nil), before, cast);
      NilSlotted(fs, before, cast);
    } else {
      TopFills(fs, before, cast);
    }
    SameRoot(below, f, top, before, cast);
  }

  lemma NilSlotted(fs: seq<DecFrame>, before: Mem, cast: Cast)
    requires fs != [] && BelowOk(fs) && StackOk(fs) && Sound(before)
    ensures var (m, c) := Slotted(fs, Leaf(TreeSpec.Nil), before, cast);
      FillTree(Leaf(TreeSpec.Nil), c, m) == Laid(fs, before, cast).0
  {
    hide Laid;
    LaidReady(fs, before, cast);
    var (m, up) := Laid(fs, before, cast);
    var i := |fs[|fs| - 1].values|;
    var slots := m.blocks[up.ptr].slots;
    assert slots[i := slots[i].(value := Value(TreeSpec.Nil))] == slots;
  }

  lemma TopFills(fs: seq<DecFrame>, before: Mem, cast: Cast)
    requires fs != [] && StackOk(fs) && Sound(before) && !WantsValue(fs[|fs| - 1])
    ensures var f, below := fs[|fs| - 1], fs[..|fs| - 1];
      var top := Top(f, cast);
      var (m, c) := Slotted(below, top, before, cast);
      && FillTree(top, c, m) == Laid(fs, before, cast).0
      && top.Node? && top.table == (f.container == Map) && |top.entries| == f.count
  {
    hide Slotted, Blank, Done;
    var f, below := fs[|fs| - 1], fs[..|fs| - 1];
    var i, n := |f.values|, f.count;
    DoneSize(f, cast);
    ReadReady(fs, before, cast);
    SameSlot(below, f, Top(f, cast), before, cast);
    SlottedNode(below, f, before, cast);
    var (m0, up) := Slotted(below, Blank(f), before, cast);
    var m2 := Read(fs, before, cast).0;
    FillConcat(Done(f, cast), NilEntries(n - i), up.ptr, 0, m0);
    NilsChangeNothing(n - i, up.ptr, i, m2);
  }

  // ----- depth -----

  /** The elements of the `k`th container fit below it. */
  ghost predicate ShallowFrame(f: DecFrame, k: nat, cast: Cast) {
    forall i :: 0 <= i < |f.values| ==> Depth(TreeOf(f.values[i], cast)) + k + 1 <= TreeSpec.DEPTH_CAP
  }

  ghost predicate Shallow(fs: seq<DecFrame>, cast: Cast) {
    forall k :: 0 <= k < |fs| ==> ShallowFrame(fs[k], k, cast)
  }

  lemma {:induction false} DepthBound(entries: seq<Entry>, d: nat)
    requires forall i :: 0 <= i < |entries| ==> DepthEntry(entries[i]) <= d
    ensures DepthFrom(entries) <= d
    decreases |entries|
  {
    hide DepthEntry;
    if entries != [] { DepthBound(entries[1..], d); }
  }

  lemma AroundIsShallow(f: DecFrame, t: Tree, k: nat, cast: Cast)
    requires WantsValue(f) && ShallowFrame(f, k, cast) && Depth(t) + k + 1 <= TreeSpec.DEPTH_CAP
    ensures Depth(Around(f, t, cast)) + k <= TreeSpec.DEPTH_CAP
  {
    hide TreeOf;
    var entries := Around(f, t, cast).entries;
    forall i | 0 <= i < |entries| ensures DepthEntry(entries[i]) <= TreeSpec.DEPTH_CAP - k - 1 {
      if i < |f.values| { assert entries[i] == Entry(KeyOf(f, i), TreeOf(f.values[i], cast)); }
      if i > |f.values| { assert entries[i] == Entry(None, Leaf(TreeSpec.Nil)); }
    }
    DepthBound(entries, TreeSpec.DEPTH_CAP - k - 1);
  }

  lemma TopIsShallow(f: DecFrame, k: nat, cast: Cast)
    requires FrameOk(f) && ShallowFrame(f, k, cast) && k < TreeSpec.DEPTH_CAP
    ensures Depth(Top(f, cast)) + k <= TreeSpec.DEPTH_CAP
  {
    hide TreeOf, Around;
    if WantsValue(f) {
      AroundIsShallow(f, Leaf(TreeSpec.Nil), k, cast);
    } else {
      var entries := Top(f, cast).entries;
      forall i | 0 <= i < |entries| ensures DepthEntry(entries[i]) <= TreeSpec.DEPTH_CAP - k - 1 {
        if i < |f.values| { assert entries[i] == Entry(KeyOf(f, i), TreeOf(f.values[i], cast)); }
        if i >= |f.values| { assert entries[i] == Entry(None, Leaf(TreeSpec.Nil)); }
      }
      DepthBound(entries, TreeSpec.DEPTH_CAP - k - 1);
    }
  }

  lemma {:induction false} WholeIsShallow(fs: seq<DecFrame>, t: Tree, cast: Cast)
    requires BelowOk(fs) && Shallow(fs, cast) && Depth(t) + |fs| <= TreeSpec.DEPTH_CAP
    ensures Depth(Whole(fs, t, cast)) <= TreeSpec.DEPTH_CAP
    decreases |fs|
  {
    hide Depth, Around, ShallowFrame;
    if fs != [] {
      var k := |fs| - 1;
      AroundIsShallow(fs[k], t, k, cast);
      WholeIsShallow(fs[..k], Around(fs[k], t, cast), cast);
    }
  }

  // ----- the result -----

  /** The walk with these containers open, none of its elements nested too deep. */
  ghost predicate Walking(fs: seq<DecFrame>, cast: Cast) {
    fs != [] && |fs| <= TreeSpec.DEPTH_CAP && StackOk(fs) && Shallow(fs, cast)
  }

  /**
   Between any two steps of the decoder, so wherever it fails: the root holds the partly decoded tree, which owns
   exactly what has been allocated, each block once, and is at most 32 containers deep.  Releasing it restores the heap.
   */
  lemma DecodedSoFarIsHeld(fs: seq<DecFrame>, before: Mem, cast: Cast)
    requires Walking(fs, cast) && Sound(before)
    ensures var (m, t, root) := (Laid(fs, before, cast).0, Part(fs, cast), Root(fs, before));
      && Grown(before, m, 0) && Holds(m.blocks, root, t) && Depth(t) <= TreeSpec.DEPTH_CAP
      && multiset(Owned(m.blocks, root, t)) == Range(before.next, m.next) && Distinct(Owned(m.blocks, root, t))
      && Without(m.blocks, Owned(m.blocks, root, t)) == before.blocks
  {
    hide Laid, Copy, Holds, Owned, Range, Distinct, Without, Depth, ShallowFrame, Whole, Top, Root;
    var k := |fs| - 1;
    LaidIsCopy(fs, before, cast);
    CopyIsFresh(Part(fs, cast), before);
    CopyThenFree(Part(fs, cast), before);
    TopIsShallow(fs[k], k, cast);
    WholeIsShallow(fs[..k], Top(fs[k], cast), cast);
  }
}
