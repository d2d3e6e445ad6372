/**
 Object trees on the C heap, and the walks of src/mua/api/private/helpers.c over them, as recursive functions:
 a deep copy and a release.
 */
module TreeSpec {
  import opened Bytes

  /** A double, as the number it is. */
  datatype Num = Finite(d: real) | NegativeZero | Infinite(negative: bool) | NotANumber

  /** The Object kinds that own nothing. */
  datatype Plain = Nil | Boolean(b: bool) | Integer(i: int) | Floating(d: Num) | Session(handle: int)

  /** An Object tree as a value; a string or key may have no data at all. */
  datatype Tree =
    | Leaf(p: Plain)
    | Text(s: Option<bytes>)
    | Node(table: bool, entries: seq<Entry>)

  /** An element of an array has no key. */
  datatype Entry = Entry(key: Option<bytes>, value: Tree)

  // ----- memory -----

  /** A String: its pointer, 0 for NULL, and its size. */
  datatype StrRef = StrRef(ptr: nat, size: nat)

  const NO_TEXT := StrRef(0, 0)

  /** An Object: a plain value, a String, or an Array or Dict with its backing store. */
  datatype Cell = Value(p: Plain) | StrCell(ref: StrRef) | NodeCell(table: bool, ptr: nat, size: nat)

  datatype Slot = Slot(key: StrRef, value: Cell)

  /** An allocation: the bytes of a string, or the elements of a container. */
  datatype Block = TextBlock(s: bytes) | SlotsBlock(slots: seq<Slot>)

  /** The live allocations, and the address the allocator hands out next. */
  datatype Mem = Mem(blocks: map<nat, Block>, next: nat)

  const NIL_SLOT := Slot(NO_TEXT, Value(Nil))

  function NilSlots(n: nat): (slots: seq<Slot>)
    ensures |slots| == n && forall i :: 0 <= i < n ==> slots[i] == NIL_SLOT
  {
    if n == 0 then [] else NilSlots(n - 1) + [NIL_SLOT]
  }

  function Alloc(m: Mem, b: Block): (Mem, nat) {
    (Mem(m.blocks[m.next := b], m.next + 1), m.next)
  }

  /** api_string_dup. */
  function Dup(s: Option<bytes>, m: Mem): (Mem, StrRef) {
    if s.None? then (m, NO_TEXT)
    else
      var (after, p) := Alloc(m, TextBlock(s.value));
      (after, StrRef(p, |s.value|))
  }

  /** copy_init: a scalar by value, a string duplicated, a container with a fresh store of Nil elements. */
  function Init(t: Tree, m: Mem): (Mem, Cell) {
    match t
    case Leaf(p) => (m, Value(p))
    case Text(s) => var (after, ref) := Dup(s, m); (after, StrCell(ref))
    case Node(table, entries) =>
      if entries == [] then (m, NodeCell(table, 0, 0))
      else
        var (after, p) := Alloc(m, SlotsBlock(NilSlots(|entries|)));
        (after, NodeCell(table, p, |entries|))
  }

  /** Writing one element of a store. */
  function Put(m: Mem, ptr: nat, i: nat, slot: Slot): Mem {
    if ptr in m.blocks && m.blocks[ptr].SlotsBlock? && i < |m.blocks[ptr].slots|
    then m.(blocks := m.blocks[ptr := SlotsBlock(m.blocks[ptr].slots[i := slot])])
    else m
  }

  /** Writing the key, or the value, of one element. */
  function PutKey(m: Mem, ptr: nat, i: nat, key: StrRef): Mem {
    if ptr in m.blocks && m.blocks[ptr].SlotsBlock? && i < |m.blocks[ptr].slots|
    then Put(m, ptr, i, m.blocks[ptr].slots[i].(key := key))
    else m
  }

  function PutValue(m: Mem, ptr: nat, i: nat, value: Cell): Mem {
    if ptr in m.blocks && m.blocks[ptr].SlotsBlock? && i < |m.blocks[ptr].slots|
    then Put(m, ptr, i, m.blocks[ptr].slots[i].(value := value))
    else m
  }

  /** One element: its key is duplicated, its value initialized, both are written. */
  function InitEntry(e: Entry, ptr: nat, i: nat, m: Mem): (Mem, Cell) {
    var (m1, key) := Dup(e.key, m);
    var (m2, cell) := Init(e.value, m1);
    (Put(m2, ptr, i, Slot(key, cell)), cell)
  }

  /** Fills the store at `ptr` with `rest` from its `i`th element on, each element's tree at once behind it. */
  function FillFrom(rest: seq<Entry>, ptr: nat, i: nat, m: Mem): Mem
    decreases rest, 0
  {
    if rest == [] then m else FillFrom(rest[1..], ptr, i + 1, FillEntry(rest[0], ptr, i, m))
  }

  function FillEntry(e: Entry, ptr: nat, i: nat, m: Mem): Mem
    decreases e, 2
  {
    var (after, cell) := InitEntry(e, ptr, i, m);
    FillTree(e.value, cell, after)
  }

  function FillTree(t: Tree, c: Cell, m: Mem): Mem
    decreases t, 1
  {
    match t
    case Node(_, entries) => if c.NodeCell? then FillFrom(entries, c.ptr, 0, m) else m
    case _ => m
  }

  /** api_copy_object. */
  function Copy(t: Tree, m: Mem): (Mem, Cell) {
    var (after, c) := Init(t, m);
    (FillTree(t, c, after), c)
  }

  // ----- a tree in memory -----

  predicate TextAt(blocks: map<nat, Block>, ref: StrRef, s: Option<bytes>) {
    if s.None? then ref == NO_TEXT
    else ref.ptr != 0 && ref.ptr in blocks && blocks[ref.ptr] == TextBlock(s.value) && ref.size == |s.value|
  }

  /** The cell holds the tree. */
  predicate Holds(blocks: map<nat, Block>, c: Cell, t: Tree)
    decreases t, 1
  {
    match t
    case Leaf(p) => c == Value(p)
    case Text(s) => c.StrCell? && TextAt(blocks, c.ref, s)
    case Node(table, entries) =>
      && c.NodeCell? && c.table == table && c.size == |entries|
      && if entries == [] then c.ptr == 0
         else Store(blocks, c.ptr, |entries|) && HoldsFrom(blocks, blocks[c.ptr].slots, entries)
  }

  /** A live backing store of `n` elements. */
  predicate Store(blocks: map<nat, Block>, ptr: nat, n: nat) {
    ptr != 0 && ptr in blocks && blocks[ptr].SlotsBlock? && |blocks[ptr].slots| == n
  }

  /** The slots hold the entries. */
  predicate HoldsFrom(blocks: map<nat, Block>, slots: seq<Slot>, rest: seq<Entry>)
    decreases rest, 0
  {
    |slots| == |rest|
    && (rest == [] || (HoldsEntry(blocks, slots[0], rest[0]) && HoldsFrom(blocks, slots[1..], rest[1..])))
  }

  predicate HoldsEntry(blocks: map<nat, Block>, slot: Slot, e: Entry)
    decreases e, 2
  {
    TextAt(blocks, slot.key, e.key) && Holds(blocks, slot.value, e.value)
  }

  // ----- release -----

  function TextOwned(ref: StrRef): seq<nat> { if ref.ptr == 0 then [] else [ref.ptr] }

  /** The allocations of a tree in the order api_free_object releases them: a container's store after its elements. */
  function Owned(blocks: map<nat, Block>, c: Cell, t: Tree): seq<nat>
    requires Holds(blocks, c, t)
    decreases t, 1
  {
    match t
    case Leaf(_) => []
    case Text(_) => TextOwned(c.ref)
    case Node(_, entries) =>
      if entries == [] then [] else OwnedFrom(blocks, blocks[c.ptr].slots, entries) + [c.ptr]
  }

  function OwnedFrom(blocks: map<nat, Block>, slots: seq<Slot>, rest: seq<Entry>): seq<nat>
    requires HoldsFrom(blocks, slots, rest)
    decreases rest, 0
  {
    if rest == [] then [] else OwnedEntry(blocks, slots[0], rest[0]) + OwnedFrom(blocks, slots[1..], rest[1..])
  }

  function OwnedEntry(blocks: map<nat, Block>, slot: Slot, e: Entry): seq<nat>
    requires HoldsEntry(blocks, slot, e)
    decreases e, 2
  {
    TextOwned(slot.key) + Owned(blocks, slot.value, e.value)
  }

  // ----- nesting -----

  /** kMarshalDepthCap: how many containers may be open at once. */
  const DEPTH_CAP := 32

  function Max(a: nat, b: nat): nat { if a < b then b else a }

  /** Container nesting; what api_copy_object's and api_free_object's callers keep within DEPTH_CAP. */
  function Depth(t: Tree): nat
    decreases t, 1
  {
    match t
    case Node(_, entries) => 1 + DepthFrom(entries)
    case _ => 0
  }

  function DepthFrom(rest: seq<Entry>): nat
    decreases rest, 0
  {
    if rest == [] then 0 else Max(DepthEntry(rest[0]), DepthFrom(rest[1..]))
  }

  function DepthEntry(e: Entry): nat
    decreases e, 2
  {
    Depth(e.value)
  }
}
