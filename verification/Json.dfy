/**
 src/mua/json.c: the converters between cJSON nodes and Object trees, each one loop over an explicit stack, on the heap
 of Heap.
 */
module Json {
  import opened Bytes
  import opened TreeSpec
  import opened TreeLaws
  import opened JsonSpec
  import opened JsonLaws
  import opened Heap

  // ----- cjson_to_object -----

  /** CjsonFrame: the children still to consume, and where the next of them goes. */
  datatype CjsonFrame = CjsonFrame(cur: seq<Kid>, dst: Cell, i: nat)

  /** What is left of the walk: the open containers, deepest first, until one past the cap turns up. */
  ghost function Rest(stack: seq<CjsonFrame>, m: Mem): (bool, Mem)
    requires |stack| <= DEPTH_CAP
    decreases |stack|
  {
    if stack == [] then (true, m)
    else
      var k := |stack| - 1;
      var (ok, after) := FillKids(stack[k].cur, StorePtr(stack[k].dst), stack[k].i, DEPTH_CAP - |stack|, m);
      if ok then Rest(stack[..k], after) else (false, after)
  }

  ghost predicate Filling(blocks: map<nat, Block>, f: CjsonFrame) {
    && f.dst.NodeCell? && f.dst.size == f.i + |f.cur|
    && (f.dst.size > 0 ==> Store(blocks, f.dst.ptr, f.dst.size))
  }

  ghost predicate Frames(blocks: map<nat, Block>, stack: seq<CjsonFrame>) {
    |stack| <= DEPTH_CAP && forall k :: 0 <= k < |stack| ==> Filling(blocks, stack[k])
  }

  /** Turns of the loop still due. */
  function Due(kids: seq<Kid>): nat
    decreases kids, 0
  {
    if kids == [] then 1 else DueKid(kids[0]) + Due(kids[1..])
  }

  function DueKid(k: Kid): nat
    decreases k, 2
  {
    1 + DueNode(k.node)
  }

  function DueNode(j: JNode): nat
    decreases j, 1
  {
    match j
    case JList(_, kids) => Due(kids)
    case _ => 0
  }

  function DueAll(stack: seq<CjsonFrame>): nat {
    if stack == [] then 0 else DueAll(stack[..|stack| - 1]) + Due(stack[|stack| - 1].cur)
  }

  /** cstr_to_string; NULL stays NULL. */
  method CstrToString(heap: ObjectHeap, s: Option<bytes>) returns (ref: StrRef)
    modifies heap
    ensures (heap.State(), ref) == Dup(s, old(heap.State()))
  {
    if s.None? { return NO_TEXT; }
    var p := heap.Alloc(TextBlock(s.value));
    ref := StrRef(p, |s.value|);
  }

  /** The keys of an object's elements, one after the other. */
  method FillKeys(heap: ObjectHeap, kids: seq<Kid>, ptr: nat)
    requires Sound(heap.State()) && Store(heap.blocks, ptr, |kids|)
    modifies heap
    ensures heap.State() == DupKeys(kids, ptr, 0, old(heap.State()))
  {
    hide Dup;
    var i := 0;
    ghost var goal := DupKeys(kids, ptr, 0, heap.State());
    assert kids[0..] == kids;
    while i < |kids|
      invariant i <= |kids| && Sound(heap.State()) && Store(heap.blocks, ptr, |kids|)
      invariant DupKeys(kids[i..], ptr, i, heap.State()) == goal
    {
      assert kids[i..][0] == kids[i] && kids[i..][1..] == kids[i + 1..];
      ghost var was := heap.State();
      DupHolds(kids[i].key, was);
      var key := CstrToString(heap, kids[i].key);
      heap.Write(ptr, i, heap.blocks[ptr].slots[i].(key := key));
      i := i + 1;
    }
  }

  /** cjson_node_init; only an object's children have keys. */
  method CjsonNodeInit(heap: ObjectHeap, src: JNode) returns (dst: Cell)
    requires Sound(heap.State())
    modifies heap
    ensures (heap.State(), dst) == NodeInit(src, old(heap.State()))
  {
    hide DupKeys, NumberOf;
    match src {
      case JNull => dst := Value(Nil);
      case JBool(b) => dst := Value(Boolean(b));
      case JNumber(d) => dst := Value(NumberOf(d));
      case JString(s) =>
        var ref := CstrToString(heap, Some(s));
        dst := StrCell(ref);
      case JList(table, kids) =>
        var p := 0;
        if kids != [] {
          AllocGrows(heap.State(), SlotsBlock(NilSlots(|kids|)));
          p := heap.Alloc(SlotsBlock(NilSlots(|kids|)));
          FillKeys(heap, kids, p);
        }
        dst := NodeCell(table, p, |kids|);
    }
  }

  lemma Popped(stack: seq<CjsonFrame>, m: Mem)
    requires stack != [] && |stack| <= DEPTH_CAP && stack[|stack| - 1].cur == []
    ensures Rest(stack[..|stack| - 1], m) == Rest(stack, m)
    ensures DueAll(stack[..|stack| - 1]) < DueAll(stack)
  {
  }

  lemma Rejected(stack: seq<CjsonFrame>, m: Mem)
    requires |stack| == DEPTH_CAP && stack[|stack| - 1].cur != [] && stack[|stack| - 1].cur[0].node.JList?
    ensures Rest(stack, m) == (false, m)
  {
    var f := stack[|stack| - 1];
    assert FillKid(f.cur[0], StorePtr(f.dst), f.i, 0, m) == (false, m);
    assert FillKids(f.cur, StorePtr(f.dst), f.i, 0, m) == (false, m);
  }

  /** The frames once the next child has been placed, and entered if it is a container. */
  function Placed(stack: seq<CjsonFrame>, dst: Cell): seq<CjsonFrame>
    requires stack != [] && stack[|stack| - 1].cur != []
  {
    var f := stack[|stack| - 1];
    stack[..|stack| - 1] + [CjsonFrame(f.cur[1..], f.dst, f.i + 1)]
    + match f.cur[0].node { case JList(_, kids) => [CjsonFrame(kids, dst, 0)] case _ => [] }
  }

  lemma PlacedRest(stack: seq<CjsonFrame>, m: Mem)
    requires stack != [] && |stack| <= DEPTH_CAP && stack[|stack| - 1].cur != []
    requires stack[|stack| - 1].cur[0].node.JList? ==> |stack| < DEPTH_CAP
    ensures var f := stack[|stack| - 1];
      var (m1, dst) := NodeInit(f.cur[0].node, m);
      && Rest(Placed(stack, dst), PutValue(m1, StorePtr(f.dst), f.i, dst)) == Rest(stack, m)
      && DueAll(Placed(stack, dst)) < DueAll(stack)
  {
    hide NodeInit, PutValue, FillKids, FillKid, FillNode, Rest, DueAll, Due, DueNode;
    var k := |stack| - 1;
    var f := stack[k];
    var kid, room := f.cur[0], DEPTH_CAP - |stack|;
    var (m1, dst) := NodeInit(kid.node, m);
    var m2 := PutValue(m1, StorePtr(f.dst), f.i, dst);
    var g := CjsonFrame(f.cur[1..], f.dst, f.i + 1);
    var s1, s2 := stack[..k] + [g], Placed(stack, dst);
    assert s1[..k] == stack[..k];
    FirstKid(f.cur, StorePtr(f.dst), f.i, room, m);
    TopRest(stack, m);
    TopRest(s1, FillNode(kid.node, dst, room, m2).1);
    if kid.node.JList? {
      assert s2[..k + 1] == s1;
      TopRest(s2, m2);
      ListNode(kid.node, dst, room, m2);
    } else {
      assert s2 == s1;
      LeafNode(kid.node, dst, room, m2);
    }
  }

  lemma TopRest(stack: seq<CjsonFrame>, m: Mem)
    requires stack != [] && |stack| <= DEPTH_CAP
    ensures var k := |stack| - 1;
      var (ok, after) := FillKids(stack[k].cur, StorePtr(stack[k].dst), stack[k].i, DEPTH_CAP - |stack|, m);
      && Rest(stack, m) == (if ok then Rest(stack[..k], after) else (false, after))
      && DueAll(stack) == DueAll(stack[..k]) + Due(stack[k].cur)
  {
    hide FillKids, Due;
  }

  lemma FirstKid(kids: seq<Kid>, ptr: nat, i: nat, room: nat, m: Mem)
    requires kids != [] && (kids[0].node.JList? ==> room > 0)
    ensures var (m1, dst) := NodeInit(kids[0].node, m);
      var (ok, after) := FillNode(kids[0].node, dst, room, PutValue(m1, ptr, i, dst));
      FillKids(kids, ptr, i, room, m) == if ok then FillKids(kids[1..], ptr, i + 1, room, after) else (false, after)
    ensures Due(kids) == 1 + DueNode(kids[0].node) + Due(kids[1..])
  {
    hide NodeInit, PutValue, FillNode, DueNode;
  }

  lemma ListNode(j: JNode, dst: Cell, room: nat, m: Mem)
    requires j.JList? && room > 0
    ensures FillNode(j, dst, room, m) == FillKids(j.kids, StorePtr(dst), 0, room - 1, m) && DueNode(j) == Due(j.kids)
  {
    hide FillKids, Due;
  }

  lemma LeafNode(j: JNode, dst: Cell, room: nat, m: Mem)
    requires !j.JList?
    ensures FillNode(j, dst, room, m) == (true, m) && DueNode(j) == 0
  {
  }

  /** The stores of the open containers stay as large as they are. */
  lemma FramesStay(m: Mem, m1: Mem, stack: seq<CjsonFrame>, dst: Cell)
    requires Sound(m) && Frames(m.blocks, stack) && stack != [] && stack[|stack| - 1].cur != []
    requires stack[|stack| - 1].cur[0].node.JList? ==> |stack| < DEPTH_CAP
    requires (m1, dst) == NodeInit(stack[|stack| - 1].cur[0].node, m)
    ensures var f := stack[|stack| - 1];
      var m2 := PutValue(m1, StorePtr(f.dst), f.i, dst);
      && Frames(m2.blocks, Placed(stack, dst)) && Sound(m2)
  {
    hide NodeInit, Range, HoldsFrom, OwnedFrom;
    var f := stack[|stack| - 1];
    assert Filling(m.blocks, f);
    NodeInitHolds(f.cur[0].node, m);
    var m2 := PutValue(m1, StorePtr(f.dst), f.i, dst);
    ValueWritten(f.dst.ptr, f.i, f.dst.size, m, m1, dst);
    NewStore(m, m1, m2, f.cur[0].node, dst, f.dst.ptr);
    forall k | 0 <= k < |stack| - 1 ensures Filling(m2.blocks, stack[k]) {
      assert Filling(m.blocks, stack[k]);
    }
  }

  /** A container that has just been initialized is ready to be filled. */
  lemma NewStore(m: Mem, m1: Mem, m2: Mem, j: JNode, dst: Cell, ptr: nat)
    requires Sound(m) && (m1, dst) == NodeInit(j, m) && ptr in m.blocks
    requires forall a :: a in m1.blocks && a != ptr ==> a in m2.blocks && m2.blocks[a] == m1.blocks[a]
    ensures j.JList? ==> Filling(m2.blocks, CjsonFrame(j.kids, dst, 0))
  {
    hide NodeInit, Range, HoldsFrom, OwnedFrom;
    NodeInitHolds(j, m);
    var mine := Owned(m1.blocks, dst, Unfilled(j));
    InRange(mine, m.next, m1.next);
    NodeOwnsItsStore(m1.blocks, dst, Unfilled(j));
  }

  lemma Begun(j: JNode, m: Mem)
    requires Sound(m)
    ensures var (m1, root) := NodeInit(j, m);
      && Sound(m1)
      && (j.JList? <==> root.NodeCell?)
      && (j.JList? ==>
            Frames(m1.blocks, [CjsonFrame(j.kids, root, 0)])
            && Rest([CjsonFrame(j.kids, root, 0)], m1) == (Build(j, m).0, Build(j, m).1))
      && (!j.JList? ==> Build(j, m) == (true, m1, root))
  {
    hide NodeInit, Range, HoldsFrom, OwnedFrom, FillKids;
    NodeInitHolds(j, m);
    var (m1, root) := NodeInit(j, m);
    if j.JList? {
      var stack := [CjsonFrame(j.kids, root, 0)];
      assert stack[..0] == [];
      assert Filling(m1.blocks, stack[0]);
    }
  }

  /**
   cjson_to_object: exactly the trees of at most 32 nested containers convert, into storage of their own; a rejected
   one leaves the heap as it was.
   */
  method CjsonToObject(heap: ObjectHeap, node: JNode) returns (ok: bool, out: Cell)
    requires Sound(heap.State())
    modifies heap
    ensures ok <==> Nesting(node) <= DEPTH_CAP
    ensures ok ==> Holds(heap.blocks, out, Convert(node, DEPTH_CAP).1)
    ensures ok ==> multiset(Owned(heap.blocks, out, Convert(node, DEPTH_CAP).1)) == Range(old(heap.next), heap.next)
    ensures ok ==> Grown(old(heap.State()), heap.State(), 0)
    ensures !ok ==> heap.blocks == old(heap.blocks)
  {
    hide Range, Holds, Owned, Convert, Nesting, NodeInit, FillKids, Frames, Filling, PutValue, Without, Distinct,
        Depth, Rest, DueAll, Build;
    ghost var before := heap.State();
    BuildHolds(node, before);
    Begun(node, before);
    var root := CjsonNodeInit(heap, node);
    BuildIs(node, before);
    if !node.JList? { return true, root; }
    var stack := [CjsonFrame(node.kids, root, 0)];
    while stack != []
      invariant Sound(heap.State()) && |stack| <= DEPTH_CAP && Frames(heap.blocks, stack)
      invariant Rest(stack, heap.State()) == (Build(node, before).0, Build(node, before).1)
      decreases DueAll(stack)
    {
      var k := |stack| - 1;
      var f := stack[k];
      ghost var m := heap.State();
      TopFrame(heap.blocks, stack);
      if f.i >= f.dst.size {
        Popped(stack, m);
        FramesBelow(heap.blocks, stack);
        stack := stack[..k];
      } else {
        var cs := f.cur[0].node;
        if cs.JList? && |stack| >= DEPTH_CAP {
          Rejected(stack, m);
          var _ := heap.FreeObject(root, Convert(node, DEPTH_CAP).1);
          return false, Value(Nil);
        }
        PlacedRest(stack, m);
        var dst := CjsonNodeInit(heap, cs);
        ghost var m1 := heap.State();
        FramesStay(m, m1, stack, dst);
        StoreStays(m, m1, f.cur[0].node, dst, f.dst.ptr, f.dst.size);
        SetValue(heap, f.dst.ptr, f.i, dst);
        stack := Placed(stack, dst);
      }
    }
    NothingDue(stack, heap.State());
    return true, root;
  }

  lemma BuildIs(j: JNode, m: Mem)
    ensures Build(j, m).2 == NodeInit(j, m).1
  {
  }

  lemma NothingDue(stack: seq<CjsonFrame>, m: Mem)
    requires stack == []
    ensures Rest(stack, m) == (true, m)
  {
  }

  lemma TopFrame(blocks: map<nat, Block>, stack: seq<CjsonFrame>)
    requires stack != [] && Frames(blocks, stack)
    ensures var f := stack[|stack| - 1];
      && f.dst.NodeCell? && f.dst.size == f.i + |f.cur| && (f.dst.size > 0 ==> Store(blocks, f.dst.ptr, f.dst.size))
      && StorePtr(f.dst) == f.dst.ptr
  {
    assert Filling(blocks, stack[|stack| - 1]);
  }

  lemma FramesBelow(blocks: map<nat, Block>, stack: seq<CjsonFrame>)
    requires stack != [] && Frames(blocks, stack)
    ensures Frames(blocks, stack[..|stack| - 1])
  {
  }

  lemma StoreStays(m: Mem, m1: Mem, j: JNode, dst: Cell, ptr: nat, n: nat)
    requires Sound(m) && Store(m.blocks, ptr, n) && (m1, dst) == NodeInit(j, m)
    ensures Store(m1.blocks, ptr, n)
  {
    hide NodeInit, Holds, Owned, Range;
    NodeInitHolds(j, m);
  }

  /** The value of one element. */
  method SetValue(heap: ObjectHeap, ptr: nat, i: nat, value: Cell)
    requires ptr in heap.blocks && heap.blocks[ptr].SlotsBlock? && i < |heap.blocks[ptr].slots|
    modifies heap
    ensures heap.State() == PutValue(old(heap.State()), ptr, i, value)
  {
    heap.Write(ptr, i, heap.blocks[ptr].slots[i].(value := value));
  }

  // ----- object_to_cjson -----

  /** ObjFrame: the source container, the next element, and the cJSON container with its key and children so far. */
  datatype ObjFrame = ObjFrame(src: Cell, i: nat, key: Option<bytes>, kids: seq<Kid>)

  /** The tree when all open containers are filled, deepest first. */
  ghost function Closed(stack: seq<ObjFrame>, rests: seq<seq<Entry>>): JNode
    requires |stack| == |rests| && stack != [] && forall k :: 0 <= k < |stack| ==> stack[k].src.NodeCell?
    decreases |stack|
  {
    var k := |stack| - 1;
    var f := stack[k];
    var node := JList(f.src.table, f.kids + BackAll(rests[k], f.src.table));
    if k == 0 then node
    else Closed(Attached(stack[..k], Kid(f.key, node)), rests[..k])
  }

  /** cJSON_AddItemToArray, cJSON_AddItemToObject on the innermost open container. */
  function Attached(stack: seq<ObjFrame>, kid: Kid): (now: seq<ObjFrame>)
    requires stack != []
    ensures |now| == |stack| && forall k :: 0 <= k < |stack| ==> now[k].src == stack[k].src
  {
    var k := |stack| - 1;
    stack[k := stack[k].(kids := stack[k].kids + [kid])]
  }

  /** A container of which `rest` is still to be emitted. */
  ghost predicate Emitting(blocks: map<nat, Block>, src: Cell, i: nat, rest: seq<Entry>, k: nat) {
    Holding(blocks, src, i, rest) && DepthFrom(rest) + k + 1 <= DEPTH_CAP
  }

  ghost predicate AllEmitting(blocks: map<nat, Block>, stack: seq<ObjFrame>, rests: seq<seq<Entry>>) {
    && |stack| == |rests| <= DEPTH_CAP
    && forall k :: 0 <= k < |stack| ==>
      stack[k].src.NodeCell? && Emitting(blocks, stack[k].src, stack[k].i, rests[k], k)
  }

  /** A Text as the bytes in front of its first NUL. */
  method CStringOf(heap: ObjectHeap, ref: StrRef, ghost s: Option<bytes>) returns (t: bytes)
    requires TextAt(heap.blocks, ref, s)
    ensures t == CText(s)
  {
    if ref.ptr == 0 { return []; }
    var data := heap.blocks[ref.ptr].s;
    t := data[..Find(data, NUL)];
  }

  /** object_make_node: a leaf, or an empty container. */
  method ObjectMakeNode(heap: ObjectHeap, o: Cell, ghost t: Tree) returns (node: JNode)
    requires Opened(t, o, heap.State())
    ensures node == match t { case Node(table, _) => JList(table, []) case _ => Back(t) }
  {
    match o {
      case Value(p) => node := BackPlain(p);
      case StrCell(ref) =>
        var s := CStringOf(heap, ref, t.s);
        node := JString(s);
      case NodeCell(table, _, _) => node := JList(table, []);
    }
  }

  lemma NextEntry(blocks: map<nat, Block>, src: Cell, i: nat, rest: seq<Entry>, k: nat)
    requires Emitting(blocks, src, i, rest, k) && rest != []
    ensures src.NodeCell? && Store(blocks, src.ptr, src.size) && i < src.size
    ensures HoldsEntry(blocks, blocks[src.ptr].slots[i], rest[0])
    ensures Emitting(blocks, src, i + 1, rest[1..], k) && Depth(rest[0].value) + k + 1 <= DEPTH_CAP
  {
    hide Holds, Depth, HoldsEntry;
    var slots := blocks[src.ptr].slots;
    assert slots[i..][0] == slots[i] && slots[i..][1..] == slots[i + 1..];
    assert DepthFrom(rest) == Max(DepthEntry(rest[0]), DepthFrom(rest[1..]));
    assert DepthEntry(rest[0]) == Depth(rest[0].value);
  }

  lemma EnteredEmits(blocks: map<nat, Block>, c: Cell, t: Tree, k: nat)
    requires Holds(blocks, c, t) && c.NodeCell? && Depth(t) + k <= DEPTH_CAP
    ensures t.Node? && c.table == t.table && Emitting(blocks, c, 0, t.entries, k) && k < DEPTH_CAP
  {
    hide HoldsFrom, DepthFrom;
    if c.size > 0 { assert blocks[c.ptr].slots[0..] == blocks[c.ptr].slots; }
  }

  /** The frames once the top one has emitted an element: attached, or entered if it is a container. */
  ghost function Emitted(stack: seq<ObjFrame>, kid: Kid, entered: bool, src: Cell): seq<ObjFrame>
    requires stack != []
  {
    var k := |stack| - 1;
    var moved := stack[k := stack[k].(i := stack[k].i + 1)];
    if entered then moved + [ObjFrame(src, 0, kid.key, [])] else Attached(moved, kid)
  }

  lemma EmittedCloses(stack: seq<ObjFrame>, rests: seq<seq<Entry>>, key: Option<bytes>, src: Cell)
    requires stack != [] && |stack| == |rests| && forall k :: 0 <= k < |stack| ==> stack[k].src.NodeCell?
    requires var k := |stack| - 1;
      && rests[k] != [] && key == (if stack[k].src.table then Some(CText(rests[k][0].key)) else None)
      && (rests[k][0].value.Node? ==> src.NodeCell? && src.table == rests[k][0].value.table)
    ensures var k := |stack| - 1;
      var e := rests[k][0];
      var now := Emitted(stack, Kid(key, Back(e.value)), e.value.Node?, src);
      var left := rests[k := rests[k][1..]] + if e.value.Node? then [e.value.entries] else [];
      && |now| == |left| && (forall j :: 0 <= j < |now| ==> now[j].src.NodeCell?)
      && Closed(now, left) == Closed(stack, rests)
      && TurnsAll(left) < TurnsAll(rests)
  {
    hide CText, Closed, TurnsAll, Turns, Back, BackAll;
    var k := |stack| - 1;
    var f, rest := stack[k], rests[k];
    var e := rest[0];
    var moved, left := stack[k := f.(i := f.i + 1)], rests[k := rest[1..]];
    FlatCloses(stack, rests, Kid(key, Back(e.value)));
    TopTurns(rests);
    TopTurns(left);
    TurnsOfEntry(rest);
    assert left[..k] == rests[..k];
    if e.value.Node? {
      var deep, deeper := moved + [ObjFrame(src, 0, key, [])], left + [e.value.entries];
      assert deep[..k + 1] == moved && deeper[..k + 1] == left;
      assert [] + BackAll(e.value.entries, src.table) == BackAll(e.value.entries, src.table);
      NodeBack(e.value);
      CloseStep(deep, deeper);
      TopTurns(deeper);
    } else {
      assert left + [] == left;
    }
  }

  /** An element that is attached to its container at once. */
  lemma FlatCloses(stack: seq<ObjFrame>, rests: seq<seq<Entry>>, kid: Kid)
    requires stack != [] && |stack| == |rests| && forall k :: 0 <= k < |stack| ==> stack[k].src.NodeCell?
    requires rests[|stack| - 1] != [] && kid == BackEntry(rests[|stack| - 1][0], stack[|stack| - 1].src.table)
    ensures var k := |stack| - 1;
      var flat := Attached(stack[k := stack[k].(i := stack[k].i + 1)], kid);
      Closed(flat, rests[k := rests[k][1..]]) == Closed(stack, rests)
  {
    hide Closed, BackEntry;
    var k := |stack| - 1;
    var f, rest := stack[k], rests[k];
    var flat, left := Attached(stack[k := f.(i := f.i + 1)], kid), rests[k := rest[1..]];
    assert f.kids + BackAll(rest, f.src.table) == (f.kids + [kid]) + BackAll(rest[1..], f.src.table);
    assert flat[..k] == stack[..k] && left[..k] == rests[..k];
    CloseStep(stack, rests);
    CloseStep(flat, left);
  }

  lemma NodeBack(t: Tree)
    requires t.Node?
    ensures Back(t) == JList(t.table, BackAll(t.entries, t.table)) && TurnsTree(t) == Turns(t.entries)
  {
  }

  lemma TopTurns(rests: seq<seq<Entry>>)
    requires rests != []
    ensures TurnsAll(rests) == TurnsAll(rests[..|rests| - 1]) + Turns(rests[|rests| - 1])
  {
  }

  lemma CloseStep(stack: seq<ObjFrame>, rests: seq<seq<Entry>>)
    requires stack != [] && |stack| == |rests| && forall k :: 0 <= k < |stack| ==> stack[k].src.NodeCell?
    ensures var k := |stack| - 1;
      var f := stack[k];
      var node := JList(f.src.table, f.kids + BackAll(rests[k], f.src.table));
      Closed(stack, rests) == if k == 0 then node else Closed(Attached(stack[..k], Kid(f.key, node)), rests[..k])
  {
  }

  lemma ContainerCloses(stack: seq<ObjFrame>, rests: seq<seq<Entry>>)
    requires stack != [] && |stack| == |rests| && forall k :: 0 <= k < |stack| ==> stack[k].src.NodeCell?
    requires rests[|stack| - 1] == []
    ensures var k := |stack| - 1;
      var f := stack[k];
      && Closed(stack, rests)
         == (if k == 0 then JList(f.src.table, f.kids)
             else Closed(Attached(stack[..k], Kid(f.key, JList(f.src.table, f.kids))), rests[..k]))
      && TurnsAll(rests[..k]) < TurnsAll(rests)
  {
    var f := stack[|stack| - 1];
    assert f.kids + [] == f.kids;
  }

  /** object_to_cjson: a tree in memory, of at most 32 nested containers, as cJSON nodes; the heap is only read. */
  method ObjectToCjson(heap: ObjectHeap, obj: Cell, ghost t: Tree) returns (root: JNode)
    requires Holds(heap.blocks, obj, t) && Depth(t) <= DEPTH_CAP
    ensures root == Back(t)
  {
    hide Holds, HoldsFrom, Depth, DepthFrom, Back, BackAll, Closed, CText, Emitting, TurnsAll;
    HoldsOpens(heap.blocks, obj, t, heap.State());
    root := ObjectMakeNode(heap, obj, t);
    if !obj.NodeCell? { return; }
    EnteredEmits(heap.blocks, obj, t, 0);
    var stack := [ObjFrame(obj, 0, None, [])];
    ghost var rests := [t.entries];
    RootCloses(stack, rests, t);
    while true
      invariant stack != [] && AllEmitting(heap.blocks, stack, rests)
      invariant Closed(stack, rests) == Back(t)
      decreases TurnsAll(rests)
    {
      var k := |stack| - 1;
      var f := stack[k];
      ghost var rest := rests[k];
      RestSize(heap.blocks, f.src, f.i, rest, k);
      if f.i >= f.src.size {
        ContainerCloses(stack, rests);
        var node := JList(f.src.table, f.kids);
        if k == 0 { return node; }
        stack, rests := Attached(stack[..k], Kid(f.key, node)), rests[..k];
      } else {
        NextEntry(heap.blocks, f.src, f.i, rest, k);
        var slot := heap.blocks[f.src.ptr].slots[f.i];
        HoldsOpens(heap.blocks, slot.value, rest[0].value, heap.State());
        var child := ObjectMakeNode(heap, slot.value, rest[0].value);
        var key: Option<bytes> := None;
        if f.src.table {
          var text := CStringOf(heap, slot.key, rest[0].key);
          key := Some(text);
        }
        if slot.value.NodeCell? { EnteredEmits(heap.blocks, slot.value, rest[0].value, k + 1); }
        EmittedCloses(stack, rests, key, slot.value);
        ghost var now := Emitted(stack, Kid(key, Back(rest[0].value)), rest[0].value.Node?, slot.value);
        stack := stack[k := f.(i := f.i + 1)];
        rests := rests[k := rest[1..]];
        if slot.value.NodeCell? {
          stack, rests := stack + [ObjFrame(slot.value, 0, key, [])], rests + [rest[0].value.entries];
        } else {
          stack := Attached(stack, Kid(key, child));
          assert rests + [] == rests;
        }
        assert stack == now;
      }
    }
  }

  lemma RootCloses(stack: seq<ObjFrame>, rests: seq<seq<Entry>>, t: Tree)
    requires t.Node? && |stack| == 1 && stack[0].src.NodeCell? && stack[0].src.table == t.table && stack[0].kids == []
    requires rests == [t.entries]
    ensures Closed(stack, rests) == Back(t)
  {
    assert [] + BackAll(t.entries, t.table) == BackAll(t.entries, t.table);
  }

  lemma RestSize(blocks: map<nat, Block>, src: Cell, i: nat, rest: seq<Entry>, k: nat)
    requires Emitting(blocks, src, i, rest, k)
    ensures src.NodeCell? && src.size == i + |rest|
  {
  }
}
