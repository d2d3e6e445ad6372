/**
 src/mua/api/private/helpers.c: the deep copy and the release of an Object tree, each one loop over an explicit stack
 of container frames, on a heap of live blocks.
 */
module Heap {
  import opened Bytes
  import opened TreeSpec
  import opened TreeLaws

  /** A container being copied: its cell, its copy's, and the next element. */
  datatype CopyFrame = CopyFrame(src: Cell, dst: Cell, i: nat)

  /** A container being drained. */
  datatype FreeFrame = FreeFrame(node: Cell, i: nat)

  /** Turns of the loop still due for a container's remaining elements. */
  function Turns(rest: seq<Entry>): nat
    decreases rest, 0
  {
    if rest == [] then 1 else TurnsEntry(rest[0]) + Turns(rest[1..])
  }

  function TurnsEntry(e: Entry): nat
    decreases e, 2
  {
    1 + TurnsTree(e.value)
  }

  function TurnsTree(t: Tree): nat
    decreases t, 1
  {
    match t
    case Node(_, entries) => Turns(entries)
    case _ => 0
  }

  function TurnsAll(rests: seq<seq<Entry>>): nat {
    if rests == [] then 0 else TurnsAll(rests[..|rests| - 1]) + Turns(rests[|rests| - 1])
  }

  /** The memory when all open containers are filled, deepest first. */
  ghost function Resume(stack: seq<CopyFrame>, rests: seq<seq<Entry>>, m: Mem): Mem
    requires |stack| == |rests|
    decreases |stack|
  {
    if stack == [] then m
    else
      var k := |stack| - 1;
      Resume(stack[..k], rests[..k], FillFrom(rests[k], StorePtr(stack[k].dst), stack[k].i, m))
  }

  function StorePtr(c: Cell): nat { if c.NodeCell? then c.ptr else 0 }

  /** A container of `n` elements, of which `rest` is what follows the `i`th. */
  ghost predicate Holding(blocks: map<nat, Block>, c: Cell, i: nat, rest: seq<Entry>) {
    && c.NodeCell? && c.size == i + |rest|
    && (c.size == 0 ==> c.ptr == 0)
    && (c.size > 0 ==> Store(blocks, c.ptr, c.size) && HoldsFrom(blocks, blocks[c.ptr].slots[i..], rest))
  }

  /** A container with a store for its elements. */
  ghost predicate Roomy(blocks: map<nat, Block>, c: Cell, n: nat) {
    c.NodeCell? && c.size == n && (c.size == 0 ==> c.ptr == 0) && (c.size > 0 ==> Store(blocks, c.ptr, c.size))
  }

  /** The `k`th frame: its source has `rest` left in the old heap, its copy is new. */
  ghost predicate Copying(before: Mem, now: map<nat, Block>, f: CopyFrame, rest: seq<Entry>, k: nat) {
    && Holding(before.blocks, f.src, f.i, rest) && Roomy(now, f.dst, f.src.size)
    && (f.dst.size > 0 ==> f.dst.ptr >= before.next)
    && DepthFrom(rest) + k + 1 <= DEPTH_CAP
  }

  ghost predicate Frames(before: Mem, now: map<nat, Block>, stack: seq<CopyFrame>, rests: seq<seq<Entry>>) {
    |stack| == |rests| <= DEPTH_CAP && forall k :: 0 <= k < |stack| ==> Copying(before, now, stack[k], rests[k], k)
  }

  /** Blocks keep their shape, so the frames stay good. */
  lemma FramesStay(before: Mem, m: Mem, after: Mem, ptr: nat, n: nat, i: nat, k: nat, stack: seq<CopyFrame>,
      rests: seq<seq<Entry>>)
    requires Frames(before, m.blocks, stack, rests)
    requires Grown(m, after, ptr) && Kin(m, after, ptr, n, i, k)
    ensures Frames(before, after.blocks, stack, rests)
  {
    hide Holding, DepthFrom;
  }

  class ObjectHeap {
    /** The live allocations. */
    var blocks: map<nat, Block>
    /** The address the allocator returns next. */
    var next: nat

    ghost function State(): Mem reads this { Mem(blocks, next) }

    constructor ()
      ensures blocks == map[] && Sound(State())
    {
      blocks, next := map[], 1;
    }

    /** xmalloc or xcalloc, and the block's first contents. */
    method Alloc(b: Block) returns (p: nat)
      modifies this
      ensures (State(), p) == TreeSpec.Alloc(old(State()), b)
    {
      p := next;
      blocks, next := blocks[p := b], next + 1;
    }

    /** xfree: NULL is ignored, anything else has to be live. */
    method Free(p: nat)
      requires p == 0 || p in blocks
      modifies this`blocks
      ensures blocks == Without(old(blocks), if p == 0 then [] else [p])
    {
      ghost var was := blocks;
      if p != 0 { blocks := map a | a in blocks && a != p :: blocks[a]; }
      assert blocks == Without(was, if p == 0 then [] else [p]);
    }

    /** api_string_dup. */
    method StringDup(s: StrRef, ghost text: Option<bytes>) returns (ref: StrRef)
      requires TextAt(blocks, s, text)
      modifies this
      ensures (State(), ref) == Dup(text, old(State()))
    {
      if s.ptr == 0 { return NO_TEXT; }
      assert blocks[s.ptr].s[..s.size] == text.value;
      var p := Alloc(TextBlock(blocks[s.ptr].s[..s.size]));
      ref := StrRef(p, s.size);
    }

    /** copy_init. */
    method CopyInit(src: Cell, ghost t: Tree) returns (dst: Cell)
      requires Opened(t, src, State())
      modifies this
      ensures (State(), dst) == Init(t, old(State()))
    {
      match src {
        case Value(p) => dst := Value(p);
        case StrCell(ref) =>
          var copy := StringDup(ref, t.s);
          dst := StrCell(copy);
        case NodeCell(table, _, n) =>
          var p := 0;
          if n > 0 { p := Alloc(SlotsBlock(NilSlots(n))); }
          dst := NodeCell(table, p, n);
      }
    }

    /** Writes one element of a backing store. */
    method Write(ptr: nat, i: nat, slot: Slot)
      requires ptr in blocks && blocks[ptr].SlotsBlock? && i < |blocks[ptr].slots|
      modifies this`blocks
      ensures State() == Put(old(State()), ptr, i, slot)
    {
      blocks := blocks[ptr := SlotsBlock(blocks[ptr].slots[i := slot])];
    }

    /** The element of a container that comes next; an array element's key is NULL, and copied as NULL. */
    method CopyElement(f: CopyFrame, ghost e: Entry) returns (src: Cell, dst: Cell)
      requires f.src.NodeCell? && f.i < f.src.size && Store(blocks, f.src.ptr, f.src.size)
      requires HoldsEntry(blocks, blocks[f.src.ptr].slots[f.i], e)
      requires Sound(State()) && f.dst.NodeCell? && f.dst.size == f.src.size && Store(blocks, f.dst.ptr, f.dst.size)
      modifies this
      ensures src == old(blocks[f.src.ptr].slots[f.i].value)
      ensures (State(), dst) == InitEntry(e, f.dst.ptr, f.i, old(State()))
    {
      hide Holds, HoldsFrom, Init, Dup;
      ghost var was := State();
      var slot := blocks[f.src.ptr].slots[f.i];
      assert Opened(e.value, slot.value, was) by { HoldsOpens(blocks, slot.value, e.value, was); }
      var key := StringDup(slot.key, e.key);
      DupHolds(e.key, was);
      ghost var dup := State();
      OpenedStays(e.value, slot.value, was, dup);
      dst := CopyInit(slot.value, e.value);
      InitHolds(e.value, dup);
      Write(f.dst.ptr, f.i, Slot(key, dst));
      src := slot.value;
    }

    /** One turn of api_copy_object's loop: a container is left, or its next element copied and perhaps entered. */
    method CopyTurn(stack: seq<CopyFrame>, ghost rests: seq<seq<Entry>>, ghost before: Mem)
      returns (now: seq<CopyFrame>, ghost left: seq<seq<Entry>>)
      requires stack != [] && Sound(before) && Grown(before, State(), 0) && Frames(before, blocks, stack, rests)
      modifies this
      ensures Grown(before, State(), 0) && Frames(before, blocks, now, left) && |now| == |left| <= DEPTH_CAP
      ensures Resume(now, left, State()) == Resume(stack, rests, old(State()))
      ensures TurnsAll(left) < TurnsAll(rests)
    {
      hide Holds, HoldsEntry, HoldsFrom, InitEntry, Copying, Resume, TurnsAll;
      var k := |stack| - 1;
      var f := stack[k];
      ghost var rest := rests[k];
      ghost var m := State();
      CopyingRoom(before, blocks, f, rest, k);
      if f.i >= f.src.size {
        now, left := stack[..k], rests[..k];
        Popped(stack, rests, m);
        return;
      }
      NextElement(before, m, f, rest, k);
      var src, dst := CopyElement(f, rest[0]);
      MovedFrames(before, m, State(), stack, rests, src, dst);
      MovedResumes(stack, rests, src, dst, m, State());
      now, left := Moved(stack, src, dst), MovedRests(rests, dst);
    }

    /** api_copy_object. */
    method CopyObject(src: Cell, ghost t: Tree) returns (root: Cell)
      requires Sound(State()) && Holds(blocks, src, t) && Depth(t) <= DEPTH_CAP
      modifies this
      ensures (State(), root) == Copy(t, old(State()))
      ensures Holds(blocks, root, t) && multiset(Owned(blocks, root, t)) == Range(old(next), next)
      ensures Grown(old(State()), State(), 0)
    {
      hide Holds, Owned, Range, Grown, Frames, FillFrom;
      ghost var before := State();
      CopyIsFresh(t, before);
      HoldsOpens(blocks, src, t, before);
      root := CopyInit(src, t);
      if !root.NodeCell? { return; }
      var stack := [CopyFrame(src, root, 0)];
      ghost var rests := [t.entries];
      Started(before, State(), src, root, t);
      while stack != []
        invariant Sound(before) && Grown(before, State(), 0) && Frames(before, blocks, stack, rests)
        invariant |stack| == |rests| <= DEPTH_CAP
        invariant Resume(stack, rests, State()) == Copy(t, before).0
        decreases TurnsAll(rests)
      {
        stack, rests := CopyTurn(stack, rests, before);
      }
    }

    /** One turn of api_free_object's loop: the next element is released or entered, or the store itself released. */
    method FreeTurn(stack: seq<FreeFrame>, ghost rests: seq<seq<Entry>>, ghost before: map<nat, Block>,
        ghost released: seq<nat>)
      returns (now: seq<FreeFrame>, ghost left: seq<seq<Entry>>, ghost done: seq<nat>)
      requires stack != [] && Draining(before, stack, rests) && blocks == Without(before, released)
      requires Distinct(released + Rest(before, stack, rests)) && Kept(before, before, Rest(before, stack, rests))
      modifies this`blocks
      ensures Draining(before, now, left) && |now| == |left| <= DEPTH_CAP && blocks == Without(before, done)
      ensures done + Rest(before, now, left) == released + Rest(before, stack, rests)
      ensures TurnsAll(left) < TurnsAll(rests)
    {
      hide Rest, Distinct, TurnsAll, Turns, Without, HoldsFrom, OwnedFrom, Kept, Drained;
      var k := |stack| - 1;
      var f := stack[k];
      ghost var rest := rests[k];
      ghost var due := Rest(before, stack, rests);
      TopFrame(before, stack, rests);
      if f.i < f.node.size {
        Live(before, released, due, f.node.ptr);
        var slot := blocks[f.node.ptr].slots[f.i];
        TopElement(before, stack, rests);
        now, left := stack[..k] + [FreeFrame(f.node, f.i + 1)], rests[..k] + [rest[1..]];
        ghost var tail := Rest(before, now, left);
        ghost var value := Owned(before, slot.value, rest[0].value);
        Next(before, released, TextOwned(slot.key), value + tail);
        Free(slot.key.ptr);
        done := released + TextOwned(slot.key);
        if slot.value.StrCell? {
          Next(before, done, value, tail);
          Free(slot.value.ref.ptr);
          done := done + value;
        } else if slot.value.NodeCell? {
          EnterElement(before, now, left, slot.value, rest[0]);
          now, left := now + [FreeFrame(slot.value, 0)], left + [rest[0].value.entries];
        } else {
          assert value + tail == tail;
        }
      } else {
        TopStore(before, stack, rests);
        now, left := stack[..k], rests[..k];
        Next(before, released, CellOwned(f.node), Rest(before, now, left));
        Free(f.node.ptr);
        done := released + CellOwned(f.node);
      }
    }

    /** api_free_object: exactly what the tree owns is released, in this order, each block live when its turn comes. */
    method FreeObject(obj: Cell, ghost t: Tree) returns (nil: Cell)
      requires Holds(blocks, obj, t) && Distinct(Owned(blocks, obj, t)) && Depth(t) <= DEPTH_CAP
      modifies this`blocks
      ensures nil == Value(Nil) && blocks == Without(old(blocks), Owned(old(blocks), obj, t))
    {
      hide Rest, Distinct, Draining, TurnsAll, Turns;
      nil := Value(Nil);
      ghost var before := blocks;
      OwnedIsLive(blocks, obj, t);
      match obj {
        case Value(_) =>
          assert Without(before, []) == before;
        case StrCell(ref) => Free(ref.ptr);
        case NodeCell(_, _, _) =>
          var stack := [FreeFrame(obj, 0)];
          ghost var rests, released := [t.entries], [];
          FreeStarted(before, obj, t);
          while stack != []
            invariant Draining(before, stack, rests) && blocks == Without(before, released)
            invariant |stack| == |rests| <= DEPTH_CAP
            invariant released + Rest(before, stack, rests) == Owned(before, obj, t)
            decreases TurnsAll(rests)
          {
            assert Kept(before, before, Rest(before, stack, rests)) by {
              KeptTail(before, released, Rest(before, stack, rests));
            }
            stack, rests, released := FreeTurn(stack, rests, before, released);
          }
          NothingLeft(before, stack, rests, released);
      }
    }
  }

  // ----- the release loop -----

  ghost predicate Drained(before: map<nat, Block>, f: FreeFrame, rest: seq<Entry>, k: nat) {
    Holding(before, f.node, f.i, rest) && DepthFrom(rest) + k + 1 <= DEPTH_CAP
  }

  ghost predicate Draining(before: map<nat, Block>, stack: seq<FreeFrame>, rests: seq<seq<Entry>>) {
    |stack| == |rests| <= DEPTH_CAP && forall k :: 0 <= k < |stack| ==> Drained(before, stack[k], rests[k], k)
  }

  /** What a frame still has to release: its remaining elements, then its store. */
  ghost function FrameRest(before: map<nat, Block>, f: FreeFrame, rest: seq<Entry>): seq<nat>
    requires Holding(before, f.node, f.i, rest)
  {
    (if f.node.size == 0 then [] else OwnedFrom(before, before[f.node.ptr].slots[f.i..], rest)) + CellOwned(f.node)
  }

  /** What all open frames still have to release, deepest first. */
  ghost function Rest(before: map<nat, Block>, stack: seq<FreeFrame>, rests: seq<seq<Entry>>): seq<nat>
    requires Draining(before, stack, rests)
  {
    if stack == [] then []
    else
      var k := |stack| - 1;
      FrameRest(before, stack[k], rests[k]) + Rest(before, stack[..k], rests[..k])
  }

  lemma KeptTail(before: map<nat, Block>, released: seq<nat>, due: seq<nat>)
    requires Kept(before, before, released + due)
    ensures Kept(before, before, due)
  {
    forall a | a in due ensures a in before { assert a in released + due; }
  }

  lemma NothingLeft(before: map<nat, Block>, stack: seq<FreeFrame>, rests: seq<seq<Entry>>, released: seq<nat>)
    requires Draining(before, stack, rests) && stack == []
    ensures released + Rest(before, stack, rests) == released
  {
  }

  /** What is still due has not been released. */
  lemma Live(before: map<nat, Block>, released: seq<nat>, due: seq<nat>, a: nat)
    requires Distinct(released + due) && Kept(before, before, due) && a in due
    ensures a in Without(before, released) && Without(before, released)[a] == before[a]
  {
    assert multiset(released + due) == multiset(released) + multiset(due);
    assert multiset(released + due)[a] <= 1 && multiset(due)[a] >= 1;
    assert a !in multiset(released);
  }

  /** Releasing the first part of what is due. */
  lemma Next(before: map<nat, Block>, released: seq<nat>, first: seq<nat>, due: seq<nat>)
    requires Distinct(released + (first + due)) && Kept(before, before, first + due)
    ensures forall a :: a in first ==> a in Without(before, released)
    ensures Without(Without(before, released), first) == Without(before, released + first)
    ensures released + (first + due) == (released + first) + due && Kept(before, before, due)
  {
    hide Distinct, Kept;
    assert released + (first + due) == (released + first) + due;
    forall a | a in first ensures a in Without(before, released) {
      assert a in first + due;
      Live(before, released, first + due, a);
    }
    KeptTail(before, first, due);
  }

  lemma TopFrame(before: map<nat, Block>, stack: seq<FreeFrame>, rests: seq<seq<Entry>>)
    requires stack != [] && Draining(before, stack, rests)
    ensures var f, rest := stack[|stack| - 1], rests[|stack| - 1];
      && f.node.NodeCell? && f.node.size == f.i + |rest| && (f.node.size == 0 ==> f.node.ptr == 0)
      && (f.node.size > 0 ==> Store(before, f.node.ptr, f.node.size) && f.node.ptr in Rest(before, stack, rests))
      && Drained(before, f, rest, |stack| - 1) && |stack| == |rests| <= DEPTH_CAP
  {
    var k := |stack| - 1;
    var f := stack[k];
    assert Drained(before, f, rests[k], k);
    if f.node.size > 0 { assert f.node.ptr in CellOwned(f.node); assert f.node.ptr in FrameRest(before, f, rests[k]); }
  }

  lemma BelowDraining(before: map<nat, Block>, stack: seq<FreeFrame>, rests: seq<seq<Entry>>)
    requires stack != [] && Draining(before, stack, rests)
    ensures Draining(before, stack[..|stack| - 1], rests[..|stack| - 1])
  {
  }

  /** A drained container: its store is due next. */
  lemma TopStore(before: map<nat, Block>, stack: seq<FreeFrame>, rests: seq<seq<Entry>>)
    requires stack != [] && Draining(before, stack, rests) && rests[|stack| - 1] == []
    ensures Draining(before, stack[..|stack| - 1], rests[..|stack| - 1])
    ensures stack[|stack| - 1].node.NodeCell?
    ensures Rest(before, stack, rests)
      == CellOwned(stack[|stack| - 1].node) + Rest(before, stack[..|stack| - 1], rests[..|stack| - 1])
    ensures TurnsAll(rests[..|stack| - 1]) < TurnsAll(rests)
  {
    hide Drained, Draining, HoldsFrom, Rest, TurnsAll, Turns;
    var k := |stack| - 1;
    TopFrame(before, stack, rests);
    BelowDraining(before, stack, rests);
    assert stack == stack[..k] + [stack[k]] && rests == rests[..k] + [rests[k]];
    Pushed(before, stack[..k], rests[..k], stack[k], rests[k]);
    DrainedFrame(before, stack[k], rests[k], k);
  }

  lemma DrainedFrame(before: map<nat, Block>, f: FreeFrame, rest: seq<Entry>, k: nat)
    requires Drained(before, f, rest, k) && rest == []
    ensures FrameRest(before, f, rest) == CellOwned(f.node) && Turns(rest) > 0
  {
  }

  /** The next element of a container: what it owns is due first. */
  lemma TopElement(before: map<nat, Block>, stack: seq<FreeFrame>, rests: seq<seq<Entry>>)
    requires stack != [] && Draining(before, stack, rests) && rests[|stack| - 1] != []
    ensures var k := |stack| - 1;
      var f, rest := stack[k], rests[k];
      var now, left := stack[..k] + [FreeFrame(f.node, f.i + 1)], rests[..k] + [rest[1..]];
      && f.node.NodeCell? && Store(before, f.node.ptr, f.node.size) && f.i < f.node.size
      && var slot := before[f.node.ptr].slots[f.i];
      && HoldsEntry(before, slot, rest[0]) && Draining(before, now, left)
      && Rest(before, stack, rests) == TextOwned(slot.key)
          + (Owned(before, slot.value, rest[0].value) + Rest(before, now, left))
      && TurnsAll(left) + 1 + TurnsTree(rest[0].value) == TurnsAll(rests)
      && Depth(rest[0].value) + |stack| <= DEPTH_CAP
  {
    hide Holds, Owned, Turns, TurnsTree, FrameRest, Depth, TextOwned, Rest, Draining, TurnsAll;
    var k := |stack| - 1;
    TopFrame(before, stack, rests);
    BelowDraining(before, stack, rests);
    var f, rest, below, belows := stack[k], rests[k], stack[..k], rests[..k];
    assert stack == below + [f] && rests == belows + [rest];
    FrameElement(before, f, rest, k);
    var g := FreeFrame(f.node, f.i + 1);
    Pushed(before, below, belows, f, rest);
    Pushed(before, below, belows, g, rest[1..]);
    var slot := before[f.node.ptr].slots[f.i];
    var value, others := Owned(before, slot.value, rest[0].value), FrameRest(before, g, rest[1..]);
    Regroup(TextOwned(slot.key), value, others, Rest(before, below, belows));
    TurnsOfEntry(rest);
  }

  lemma Pushed(before: map<nat, Block>, stack: seq<FreeFrame>, rests: seq<seq<Entry>>, f: FreeFrame, rest: seq<Entry>)
    requires Draining(before, stack, rests) && Drained(before, f, rest, |stack|)
    ensures Draining(before, stack + [f], rests + [rest])
    ensures Rest(before, stack + [f], rests + [rest]) == FrameRest(before, f, rest) + Rest(before, stack, rests)
    ensures TurnsAll(rests + [rest]) == TurnsAll(rests) + Turns(rest)
  {
    hide FrameRest, Turns;
    var now, left := stack + [f], rests + [rest];
    assert now[..|stack|] == stack && left[..|stack|] == rests;
  }

  lemma Regroup(a: seq<nat>, b: seq<nat>, c: seq<nat>, d: seq<nat>)
    ensures (a + (b + c)) + d == a + (b + (c + d))
  {
  }

  lemma TurnsOfEntry(rest: seq<Entry>)
    requires rest != []
    ensures Turns(rest) == 1 + TurnsTree(rest[0].value) + Turns(rest[1..])
  {
  }

  lemma FrameElement(before: map<nat, Block>, f: FreeFrame, rest: seq<Entry>, k: nat)
    requires Drained(before, f, rest, k) && rest != []
    ensures var g := FreeFrame(f.node, f.i + 1);
      && Drained(before, g, rest[1..], k) && Store(before, f.node.ptr, f.node.size)
      && var slot := before[f.node.ptr].slots[f.i];
      && HoldsEntry(before, slot, rest[0])
      && FrameRest(before, f, rest)
         == TextOwned(slot.key) + (Owned(before, slot.value, rest[0].value) + FrameRest(before, g, rest[1..]))
      && Depth(rest[0].value) + k + 1 <= DEPTH_CAP
  {
    hide Holds, Owned;
    var slots := before[f.node.ptr].slots;
    var slot, tail := slots[f.i], slots[f.i + 1..];
    assert slots[f.i..][0] == slot && slots[f.i..][1..] == tail;
    assert HoldsEntry(before, slot, rest[0]) && HoldsFrom(before, tail, rest[1..]);
    assert DepthFrom(rest) == Max(DepthEntry(rest[0]), DepthFrom(rest[1..]));
    var key, value, others := TextOwned(slot.key), Owned(before, slot.value, rest[0].value),
        OwnedFrom(before, tail, rest[1..]);
    assert OwnedFrom(before, slots[f.i..], rest) == (key + value) + others;
    assert ((key + value) + others) + CellOwned(f.node) == key + (value + (others + CellOwned(f.node)));
  }

  /** Entering a container moves what it owns to a frame of its own. */
  lemma EnterElement(before: map<nat, Block>, stack: seq<FreeFrame>, rests: seq<seq<Entry>>, c: Cell, e: Entry)
    requires Draining(before, stack, rests) && Holds(before, c, e.value) && c.NodeCell?
    requires Depth(e.value) + |stack| <= DEPTH_CAP
    ensures e.value.Node?
    ensures var now, left := stack + [FreeFrame(c, 0)], rests + [e.value.entries];
      && Draining(before, now, left) && Rest(before, now, left)
          == Owned(before, c, e.value) + Rest(before, stack, rests)
      && TurnsAll(left) == TurnsTree(e.value) + TurnsAll(rests)
  {
    hide HoldsFrom, OwnedFrom, DepthFrom, Draining, Rest, TurnsAll;
    var f, rest := FreeFrame(c, 0), e.value.entries;
    if c.size > 0 { assert before[c.ptr].slots[0..] == before[c.ptr].slots; }
    assert Drained(before, f, rest, |stack|);
    assert FrameRest(before, f, rest) == Owned(before, c, e.value);
    Pushed(before, stack, rests, f, rest);
  }

  lemma FreeStarted(before: map<nat, Block>, obj: Cell, t: Tree)
    requires Holds(before, obj, t) && obj.NodeCell? && Depth(t) <= DEPTH_CAP
    ensures t.Node? && Draining(before, [FreeFrame(obj, 0)], [t.entries])
    ensures [] + Rest(before, [FreeFrame(obj, 0)], [t.entries]) == Owned(before, obj, t)
  {
    hide Holds, Owned, Depth, TurnsAll, FrameRest, Rest, Draining, Drained;
    var none: seq<FreeFrame>, nobody: seq<seq<Entry>> := [], [];
    NothingOpen(before, none, nobody);
    EnterElement(before, none, nobody, obj, Entry(None, t));
    assert none + [FreeFrame(obj, 0)] == [FreeFrame(obj, 0)] && nobody + [t.entries] == [t.entries];
    assert Owned(before, obj, t) + [] == Owned(before, obj, t) == [] + Owned(before, obj, t);
  }

  lemma NothingOpen(before: map<nat, Block>, stack: seq<FreeFrame>, rests: seq<seq<Entry>>)
    requires stack == [] && rests == []
    ensures Draining(before, stack, rests) && Rest(before, stack, rests) == []
  {
  }

  /** A frame whose container has been entered. */
  lemma NextElement(before: Mem, m: Mem, f: CopyFrame, rest: seq<Entry>, k: nat)
    requires Sound(before) && Grown(before, m, 0) && Copying(before, m.blocks, f, rest, k) && rest != []
    ensures Store(before.blocks, f.src.ptr, f.src.size) && Store(m.blocks, f.src.ptr, f.src.size)
        && m.blocks[f.src.ptr] == before.blocks[f.src.ptr]
    ensures HoldsEntry(before.blocks, before.blocks[f.src.ptr].slots[f.i], rest[0])
    ensures HoldsEntry(m.blocks, m.blocks[f.src.ptr].slots[f.i], rest[0])
  {
    hide Holds, HoldsEntry, Owned, OwnedEntry;
    var slot := before.blocks[f.src.ptr].slots[f.i];
    assert before.blocks[f.src.ptr].slots[f.i..][0] == slot;
    OwnedEntryIsLive(before.blocks, slot, rest[0]);
    HoldsEntryStays(before.blocks, m.blocks, slot, rest[0]);
  }

  /** Growing on a block of the newer heap only. */
  lemma GrownOn(before: Mem, m: Mem, after: Mem, ptr: nat)
    requires Sound(before) && Grown(before, m, 0) && Grown(m, after, ptr) && (ptr == 0 || ptr >= before.next)
    ensures Grown(before, after, 0)
  {
  }

  /** What is left of the container once that element is done. */
  lemma Stepped(before: Mem, m: Mem, after: Mem, f: CopyFrame, rest: seq<Entry>, k: nat)
    requires Copying(before, m.blocks, f, rest, k) && rest != [] && Store(after.blocks, f.dst.ptr, f.dst.size)
    ensures Copying(before, after.blocks, CopyFrame(f.src, f.dst, f.i + 1), rest[1..], k)
  {
    hide HoldsFrom, DepthEntry;
    var slots := before.blocks[f.src.ptr].slots;
    assert slots[f.i..][1..] == slots[f.i + 1..];
    RestHolds(before.blocks, slots[f.i..], rest);
  }

  /** The frame of an element that is a container itself. */
  lemma Entered(before: Mem, after: Mem, src: Cell, e: Entry, slot: Slot, dst: Cell, k: nat)
    requires HoldsEntry(before.blocks, slot, e) && slot.value == src && e.value.Node?
    requires Opened(e.value, dst, after) && DepthEntry(e) + k <= DEPTH_CAP
    requires forall a :: a in CellOwned(dst) ==> a >= before.next
    ensures Copying(before, after.blocks, CopyFrame(src, dst, 0), e.value.entries, k)
  {
    hide HoldsFrom, DepthFrom;
    if dst.ptr != 0 { assert dst.ptr in CellOwned(dst); }
    if src.ptr != 0 { assert before.blocks[src.ptr].slots[0..] == before.blocks[src.ptr].slots; }
  }

  lemma RestHolds(blocks: map<nat, Block>, slots: seq<Slot>, rest: seq<Entry>)
    requires rest != []
    ensures HoldsFrom(blocks, slots, rest) ==> HoldsFrom(blocks, slots[1..], rest[1..])
  {
  }

  lemma Popped(stack: seq<CopyFrame>, rests: seq<seq<Entry>>, m: Mem)
    requires stack != [] && |stack| == |rests| && rests[|rests| - 1] == []
    ensures Resume(stack[..|stack| - 1], rests[..|stack| - 1], m) == Resume(stack, rests, m)
    ensures TurnsAll(rests[..|stack| - 1]) < TurnsAll(rests)
  {
  }

  /** The frames once the top one has moved on over one element, which was entered if it is a container. */
  function Moved(stack: seq<CopyFrame>, src: Cell, dst: Cell): seq<CopyFrame>
    requires stack != []
  {
    var f := stack[|stack| - 1];
    stack[..|stack| - 1] + [CopyFrame(f.src, f.dst, f.i + 1)] + if dst.NodeCell? then [CopyFrame(src, dst, 0)] else []
  }

  ghost function MovedRests(rests: seq<seq<Entry>>, dst: Cell): seq<seq<Entry>>
    requires rests != [] && rests[|rests| - 1] != []
  {
    var rest := rests[|rests| - 1];
    rests[..|rests| - 1] + [rest[1..]]
    + if dst.NodeCell? && rest[0].value.Node? then [rest[0].value.entries] else []
  }

  lemma MovedResumes(stack: seq<CopyFrame>, rests: seq<seq<Entry>>, src: Cell, dst: Cell, m: Mem, after: Mem)
    requires stack != [] && |stack| == |rests| && stack[|stack| - 1].dst.NodeCell?
    requires rests[|rests| - 1] != []
    requires (after, dst) == InitEntry(rests[|rests| - 1][0], stack[|stack| - 1].dst.ptr, stack[|stack| - 1].i, m)
    requires rests[|rests| - 1][0].value.Node? <==> dst.NodeCell?
    ensures Resume(Moved(stack, src, dst), MovedRests(rests, dst), after) == Resume(stack, rests, m)
    ensures TurnsAll(MovedRests(rests, dst)) < TurnsAll(rests)
  {
    hide InitEntry;
    var k := |stack| - 1;
    var f, rest := stack[k], rests[k];
    var g := CopyFrame(f.src, f.dst, f.i + 1);
    var m1 := FillTree(rest[0].value, dst, after);
    assert FillFrom(rest, f.dst.ptr, f.i, m) == FillFrom(rest[1..], g.dst.ptr, g.i, m1);
    var s1, r1 := stack[..k] + [g], rests[..k] + [rest[1..]];
    assert s1[..k] == stack[..k] && r1[..k] == rests[..k];
    assert Resume(s1, r1, m1) == Resume(stack, rests, m);
    assert TurnsAll(r1) == TurnsAll(rests[..k]) + Turns(rest[1..]);
    assert Turns(rest) == 1 + TurnsTree(rest[0].value) + Turns(rest[1..]);
    var s2, r2 := Moved(stack, src, dst), MovedRests(rests, dst);
    if dst.NodeCell? {
      assert s2[..k + 1] == s1 && r2[..k + 1] == r1;
      assert Resume(s2, r2, after) == Resume(s1, r1, m1);
      assert TurnsAll(r2) == TurnsAll(r1) + Turns(rest[0].value.entries);
    } else {
      assert s2 == s1 && r2 == r1 && m1 == after;
    }
  }

  lemma MovedFrames(before: Mem, m: Mem, after: Mem, stack: seq<CopyFrame>, rests: seq<seq<Entry>>, src: Cell,
      dst: Cell)
    requires Sound(before) && Sound(m) && Grown(before, m, 0) && Frames(before, m.blocks, stack, rests)
    requires stack != [] && rests[|rests| - 1] != []
    requires var f := stack[|stack| - 1];
      && (after, dst) == InitEntry(rests[|rests| - 1][0], f.dst.ptr, f.i, m)
      && Store(before.blocks, f.src.ptr, f.src.size) && f.i < f.src.size
          && src == before.blocks[f.src.ptr].slots[f.i].value
      && HoldsEntry(before.blocks, before.blocks[f.src.ptr].slots[f.i], rests[|rests| - 1][0])
    ensures Frames(before, after.blocks, Moved(stack, src, dst), MovedRests(rests, dst)) && Grown(before, after, 0)
    ensures rests[|rests| - 1][0].value.Node? <==> dst.NodeCell?
  {
    hide InitEntry, Copying, HoldsEntry, Range, TextAt, Depth, DepthFrom, Frames;
    var k := |stack| - 1;
    FramesTop(before, m.blocks, stack, rests);
    var f, rest := stack[k], rests[k];
    CopyingRoom(before, m.blocks, f, rest, k);
    InitEntryHolds(rest[0], f.dst.ptr, f.i, f.dst.size, m);
    InRange(CellOwned(dst), m.next, after.next);
    GrownOn(before, m, after, f.dst.ptr);
    FramesStay(before, m, after, f.dst.ptr, f.dst.size, f.i, f.i + 1, stack[..k], rests[..k]);
    Stepped(before, m, after, f, rest, k);
    if dst.NodeCell? { Entered(before, after, src, rest[0], before.blocks[f.src.ptr].slots[f.i], dst, k + 1); }
    var g := CopyFrame(f.src, f.dst, f.i + 1);
    FramesPush(before, after.blocks, stack[..k], rests[..k], g, rest[1..]);
    var s1, r1 := stack[..k] + [g], rests[..k] + [rest[1..]];
    if dst.NodeCell? {
      FramesPush(before, after.blocks, s1, r1, CopyFrame(src, dst, 0), rest[0].value.entries);
    } else {
      assert Moved(stack, src, dst) == s1 && MovedRests(rests, dst) == r1;
    }
  }

  lemma FramesPush(before: Mem, now: map<nat, Block>, stack: seq<CopyFrame>, rests: seq<seq<Entry>>, f: CopyFrame,
      rest: seq<Entry>)
    requires Frames(before, now, stack, rests) && Copying(before, now, f, rest, |stack|)
    ensures Frames(before, now, stack + [f], rests + [rest])
  {
    CopyingRoom(before, now, f, rest, |stack|);
    hide Copying;
  }

  lemma FramesTop(before: Mem, now: map<nat, Block>, stack: seq<CopyFrame>, rests: seq<seq<Entry>>)
    requires stack != [] && Frames(before, now, stack, rests)
    ensures Frames(before, now, stack[..|stack| - 1], rests[..|stack| - 1])
    ensures |stack| == |rests| && Copying(before, now, stack[|stack| - 1], rests[|stack| - 1], |stack| - 1)
  {
    hide Copying;
  }

  lemma CopyingRoom(before: Mem, now: map<nat, Block>, f: CopyFrame, rest: seq<Entry>, k: nat)
    requires Copying(before, now, f, rest, k)
    ensures f.src.NodeCell? && f.dst.NodeCell? && f.dst.size == f.src.size == f.i + |rest|
    ensures f.dst.size > 0 ==> Store(now, f.dst.ptr, f.dst.size) && f.dst.ptr >= before.next
    ensures k + 1 <= DEPTH_CAP && (rest != [] ==> DepthEntry(rest[0]) + k + 1 <= DEPTH_CAP)
  {
  }

  lemma Started(before: Mem, m: Mem, src: Cell, root: Cell, t: Tree)
    requires Sound(before) && Holds(before.blocks, src, t) && Depth(t) <= DEPTH_CAP && t.Node?
    requires (m, root) == Init(t, before)
    ensures Frames(before, m.blocks, [CopyFrame(src, root, 0)], [t.entries]) && Grown(before, m, 0)
    ensures Resume([CopyFrame(src, root, 0)], [t.entries], m) == Copy(t, before).0
  {
    hide Range, TextAt, FillFrom;
    InitHolds(t, before);
    if t.entries != [] {
      assert before.blocks[src.ptr].slots[0..] == before.blocks[src.ptr].slots;
    }
    var rest := [CopyFrame(src, root, 0)][..0];
  }

  lemma HoldsOpens(blocks: map<nat, Block>, c: Cell, t: Tree, m: Mem)
    requires Holds(blocks, c, t) && m.blocks == blocks
    ensures Opened(t, c, m)
  {
  }

  lemma OpenedStays(t: Tree, c: Cell, m: Mem, after: Mem)
    requires Opened(t, c, m) && Grown(m, after, 0) && Sound(m)
    ensures Opened(t, c, after)
  {
  }
}
