/** The iterative, depth-capped decoder of src/mua/msgpack.c, on the heap of Heap. */
module MsgpackDecoder {
  import opened Bytes
  import opened MsgpackSpec
  import opened MsgpackReader
  import opened MsgpackTree
  import opened TreeSpec
  import opened TreeLaws
  import opened Heap

  /** MpDecFrame: the container being filled, and the element that is next. */
  datatype MpDecFrame =
    MpDecFrame(container: Cell, isMap: bool, remaining: nat, idx: nat, awaitingValue: bool)

  /** The frame and what has been read of its container; while a child is open the index is one ahead. */
  ghost predicate Mirror(g: MpDecFrame, f: DecFrame, c: Cell, below: bool) {
    && g.container == c && g.isMap == (f.container == Map) && g.remaining == f.count
    && g.idx == |f.values| + (if below then 1 else 0) && g.awaitingValue == (!below && Awaiting(f))
  }

  ghost predicate MirrorsBelow(frames: seq<MpDecFrame>, fs: seq<DecFrame>, before: Mem, cast: Cast)
    requires BelowOk(fs)
    decreases |fs|
  {
    |frames| == |fs|
    && (fs == [] || (Mirror(frames[|fs| - 1], fs[|fs| - 1], Laid(fs, before, cast).1, true)
                     && MirrorsBelow(frames[..|fs| - 1], fs[..|fs| - 1], before, cast)))
  }

  /** The memory and the output's cell are those of this point of the walk. */
  ghost predicate AtRest(m: Mem, root: Cell, fs: seq<DecFrame>, before: Mem, cast: Cast) {
    Walking(fs, cast) && Sound(before) && m == Laid(fs, before, cast).0 && root == Root(fs, before)
  }

  /** And so are the frames. */
  ghost predicate Running(m: Mem, root: Cell, frames: seq<MpDecFrame>, fs: seq<DecFrame>, before: Mem, cast: Cast) {
    && AtRest(m, root, fs, before, cast) && |frames| == |fs|
    && Mirror(frames[|fs| - 1], fs[|fs| - 1], Laid(fs, before, cast).1, false)
    && MirrorsBelow(frames[..|fs| - 1], fs[..|fs| - 1], before, cast)
  }

  // ----- slots -----

  /** A scalar's slot. */
  method ScalarSlot(heap: ObjectHeap, v: Obj, cast: Cast) returns (c: Cell)
    requires !v.Arr? && !v.Dict?
    modifies heap
    ensures (heap.State(), c) == Init(TreeOf(v, cast), old(heap.State()))
  {
    match v {
      case Nil => c := Value(TreeSpec.Nil);
      case Session => c := Value(TreeSpec.Nil);
      case Bool(b) => c := Value(Boolean(b));
      case Int(i) => c := Value(Integer(i));
      case Float(f) => c := Value(Floating(cast(f)));
      case Str(s) =>
        var ref := TakeText(heap, s);
        c := StrCell(ref);
    }
  }

  /** An owned String of these bytes; no bytes, no data. */
  method TakeText(heap: ObjectHeap, s: bytes) returns (ref: StrRef)
    modifies heap
    ensures (heap.State(), ref) == Dup(TextOf(s), old(heap.State()))
  {
    if |s| == 0 { return NO_TEXT; }
    var p := heap.Alloc(TextBlock(s));
    ref := StrRef(p, |s|);
  }

  /** A container's slot, with a store of Nil elements. */
  method ContainerSlot(heap: ObjectHeap, container: Container, count: nat) returns (c: Cell)
    modifies heap
    ensures (heap.State(), c) == Init(Blank(OpenFrame(container, count)), old(heap.State()))
  {
    var p := 0;
    if count > 0 { p := heap.Alloc(SlotsBlock(NilSlots(count))); }
    c := NodeCell(container == Map, p, count);
  }

  method WriteKey(heap: ObjectHeap, ptr: nat, i: nat, key: StrRef)
    requires ptr in heap.blocks && heap.blocks[ptr].SlotsBlock? && i < |heap.blocks[ptr].slots|
    modifies heap
    ensures heap.State() == PutKey(old(heap.State()), ptr, i, key)
  {
    heap.Write(ptr, i, heap.blocks[ptr].slots[i].(key := key));
  }

  method WriteValue(heap: ObjectHeap, ptr: nat, i: nat, value: Cell)
    requires ptr in heap.blocks && heap.blocks[ptr].SlotsBlock? && i < |heap.blocks[ptr].slots|
    modifies heap
    ensures heap.State() == PutValue(old(heap.State()), ptr, i, value)
  {
    heap.Write(ptr, i, heap.blocks[ptr].slots[i].(value := value));
  }

  // ----- steps -----

  lemma RootStays(fs: seq<DecFrame>, g: DecFrame, before: Mem)
    requires fs != []
    requires var f := fs[|fs| - 1]; f.container == g.container && f.count == g.count
    ensures Root(WithTop(fs, g), before) == Root(fs, before)
  {
    hide Init, Blank;
    SameBelow(fs, g);
    if |fs| == 1 { SameBlank(fs[0], g); } else { assert WithTop(fs, g)[0] == fs[..|fs| - 1][0]; }
  }

  lemma ShallowTop(fs: seq<DecFrame>, g: DecFrame, cast: Cast)
    requires fs != [] && Shallow(fs, cast) && ShallowFrame(g, |fs| - 1, cast)
    ensures Shallow(WithTop(fs, g), cast)
  {
    hide ShallowFrame;
    SameBelow(fs, g);
    forall k | 0 <= k < |fs| ensures ShallowFrame(WithTop(fs, g)[k], k, cast) {
      if k < |fs| - 1 { assert WithTop(fs, g)[k] == fs[..|fs| - 1][k]; }
    }
  }

  /** A frame changed in place. */
  function Retop(frames: seq<MpDecFrame>, g: MpDecFrame): (r: seq<MpDecFrame>)
    requires frames != []
    ensures |r| == |frames| && r[|r| - 1] == g && r[..|r| - 1] == frames[..|frames| - 1]
  {
    frames[|frames| - 1 := g]
  }

  lemma KeyRuns(m: Mem, root: Cell, frames: seq<MpDecFrame>, fs: seq<DecFrame>, key: bytes, before: Mem, cast: Cast)
    requires Running(m, root, frames, fs, before, cast)
    requires var f := fs[|fs| - 1]; f.container == Map && !Awaiting(f) && |f.values| < f.count
    ensures var f := fs[|fs| - 1];
      var top := frames[|fs| - 1];
      var (m1, ref) := Dup(TextOf(key), m);
      Running(PutKey(m1, StorePtr(top.container), top.idx, ref), root, Retop(frames, top.(awaitingValue := true)),
        WithTop(fs, f.(keys := f.keys + [key])), before, cast)
  {
    hide Laid, Dup, TextOf, TreeOf, PutKey, Root, Fillable, MirrorsBelow;
    var f := fs[|fs| - 1];
    var g := f.(keys := f.keys + [key]);
    LaidReady(fs, before, cast);
    FillableStore(m, Laid(fs, before, cast).1, f);
    KeyLaid(fs, key, before, cast);
    RootStays(fs, g, before);
    ShallowTop(fs, g, cast);
    SameBelow(fs, g);
  }

  lemma ScalarRuns(m: Mem, root: Cell, frames: seq<MpDecFrame>, fs: seq<DecFrame>, v: Obj, before: Mem, cast: Cast)
    requires Running(m, root, frames, fs, before, cast) && WantsValue(fs[|fs| - 1]) && !v.Arr? && !v.Dict?
    ensures var top := frames[|fs| - 1];
      var (m1, c) := Init(TreeOf(v, cast), m);
      Running(PutValue(m1, StorePtr(top.container), top.idx, c), root,
        Retop(frames, top.(idx := top.idx + 1, awaitingValue := false)), WithTop(fs, Plug(fs[|fs| - 1], v)), before,
        cast)
  {
    hide Laid, Init, PutValue, Root, MirrorsBelow, TreeOf, ShallowFrame;
    var f := fs[|fs| - 1];
    ScalarLaid(fs, v, before, cast);
    ScalarIsShallow(f, v, |fs| - 1, cast);
    RootStays(fs, Plug(f, v), before);
    ShallowTop(fs, Plug(f, v), cast);
    SameBelow(fs, Plug(f, v));
  }

  lemma ScalarIsShallow(f: DecFrame, v: Obj, k: nat, cast: Cast)
    requires WantsValue(f) && ShallowFrame(f, k, cast) && !v.Arr? && !v.Dict? && k < TreeSpec.DEPTH_CAP
    ensures ShallowFrame(Plug(f, v), k, cast)
  {
    assert Depth(TreeOf(v, cast)) == 0;
    hide TreeOf, Depth;
  }

  lemma OpenRuns(m: Mem, root: Cell, frames: seq<MpDecFrame>, fs: seq<DecFrame>, container: Container, count: nat,
      before: Mem, cast: Cast)
    requires Running(m, root, frames, fs, before, cast) && WantsValue(fs[|fs| - 1]) && |fs| < TreeSpec.DEPTH_CAP
    ensures var top := frames[|fs| - 1];
      var (m1, c) := Init(Blank(OpenFrame(container, count)), m);
      Running(PutValue(m1, StorePtr(top.container), top.idx, c), root,
        Retop(frames, top.(idx := top.idx + 1, awaitingValue := false))
          + [MpDecFrame(c, container == Map, count, 0, false)],
        fs + [OpenFrame(container, count)], before, cast)
  {
    hide Laid, Init, PutValue, Blank, ShallowFrame;
    var g := OpenFrame(container, count);
    OpenLaid(fs, container, count, before, cast);
    NothingRead(container, count, |fs|, cast);
    var top := frames[|fs| - 1];
    var below := Retop(frames, top.(idx := top.idx + 1, awaitingValue := false));
    var c := Init(Blank(g), m).1;
    assert (below + [MpDecFrame(c, container == Map, count, 0, false)])[..|fs|] == below;
    assert (fs + [g])[..|fs|] == fs;
    forall k | 0 <= k < |fs + [g]| ensures ShallowFrame((fs + [g])[k], k, cast) {
      if k < |fs| { assert (fs + [g])[k] == fs[k]; }
    }
  }

  lemma NothingRead(container: Container, count: nat, k: nat, cast: Cast)
    ensures ShallowFrame(OpenFrame(container, count), k, cast)
  {
  }

  lemma PopRuns(m: Mem, root: Cell, frames: seq<MpDecFrame>, fs: seq<DecFrame>, before: Mem, cast: Cast)
    requires Running(m, root, frames, fs, before, cast) && |fs| > 1 && |fs[|fs| - 1].values| == fs[|fs| - 1].count
    ensures var k := |fs| - 1;
      Running(m, root, frames[..k], WithTop(fs[..k], Plug(fs[k - 1], Built(fs[k]))), before, cast)
  {
    hide Laid, Root, Built, ShallowFrame;
    var k := |fs| - 1;
    var below := fs[..k];
    assert below[k - 1] == fs[k - 1];
    var g := Plug(fs[k - 1], Built(fs[k]));
    PopLaid(fs, before, cast);
    BuiltIsShallow(fs[k - 1], fs[k], k, cast);
    ShallowTop(below, g, cast);
    RootStays(below, g, before);
    assert below[0] == fs[0];
    SameRootCell(below, fs, before);
    SameBelow(below, g);
    assert frames[..k][..k - 1] == frames[..k - 1];
  }

  lemma SameRootCell(fs: seq<DecFrame>, gs: seq<DecFrame>, before: Mem)
    requires fs != [] && gs != [] && fs[0] == gs[0]
    ensures Root(fs, before) == Root(gs, before)
  {
  }

  lemma BuiltIsShallow(f: DecFrame, g: DecFrame, k: nat, cast: Cast)
    requires WantsValue(f) && FrameOk(g) && |g.values| == g.count && 0 < k < TreeSpec.DEPTH_CAP
    requires ShallowFrame(f, k - 1, cast) && ShallowFrame(g, k, cast)
    ensures ShallowFrame(Plug(f, Built(g)), k - 1, cast)
  {
    hide Built, Top, TreeOf;
    BuiltTree(g, cast);
    TopIsShallow(g, k, cast);
  }

  /** The outermost container is full. */
  lemma LastRuns(m: Mem, root: Cell, fs: seq<DecFrame>, before: Mem, cast: Cast)
    requires AtRest(m, root, fs, before, cast) && |fs| == 1 && |fs[0].values| == fs[0].count
    ensures var t := TreeOf(Built(fs[0]), cast);
      Copy(t, before) == (m, root) && Depth(t) <= TreeSpec.DEPTH_CAP
  {
    hide Laid, Root, Built, TreeOf, Copy, Top, Depth;
    LaidIsCopy(fs, before, cast);
    BuiltTree(fs[0], cast);
    TopIsShallow(fs[0], 0, cast);
  }

  /** The element that a frame is at, in the heap. */
  lemma TopIsWritable(m: Mem, root: Cell, frames: seq<MpDecFrame>, fs: seq<DecFrame>, before: Mem, cast: Cast)
    requires Running(m, root, frames, fs, before, cast)
    ensures var f, g := fs[|fs| - 1], frames[|fs| - 1];
      && g.isMap == (f.container == Map) && g.remaining == f.count && g.idx == |f.values| <= f.count
      && g.awaitingValue == Awaiting(f)
      && (g.idx < g.remaining ==> Store(m.blocks, StorePtr(g.container), g.remaining))
    ensures Sound(m)
  {
    hide Laid, Root, MirrorsBelow;
    LaidReady(fs, before, cast);
  }

  // ----- the decoder -----

  /** api_free_object on the output: what has been decoded so far goes, and the heap is as it was. */
  method Release(heap: ObjectHeap, root: Cell, ghost fs: seq<DecFrame>, ghost before: Mem, ghost cast: Cast)
    requires AtRest(heap.State(), root, fs, before, cast)
    modifies heap
    ensures heap.blocks == before.blocks
  {
    hide Laid, Root, Part, Holds, Owned, Range, Distinct, Without, Depth, Walking;
    DecodedSoFarIsHeld(fs, before, cast);
    WalkingStack(fs, cast);
    var _ := heap.FreeObject(root, Part(fs, cast));
  }

  lemma WalkingStack(fs: seq<DecFrame>, cast: Cast)
    requires Walking(fs, cast)
    ensures fs != [] && StackOk(fs)
  {
  }

  /** A map's key; its bytes are the frame's from then on. */
  method FillKey(heap: ObjectHeap, root: Cell, buf: bytes, pos: nat, stack: array<MpDecFrame>, depth: nat,
      ghost fs: seq<DecFrame>, ghost before: Mem, ghost cast: Cast)
    returns (failure: Option<Result<Cell>>, next: nat, ghost after: seq<DecFrame>)
    requires pos <= |buf| && 0 < depth <= stack.Length && |fs| == depth && StackOk(fs)
    requires Running(heap.State(), root, stack[..depth], fs, before, cast)
    requires var f := fs[|fs| - 1]; f.container == Map && !Awaiting(f) && |f.values| < f.count
    modifies heap, stack
    ensures AtRest(heap.State(), root, after, before, cast)
    ensures if failure.Some? then !failure.value.Ok? && FinishAll(buf, pos, fs) == Failed<Cell, Obj>(failure.value)
            else pos < next <= |buf| && |after| == depth && StackOk(after)
                 && Running(heap.State(), root, stack[..depth], after, before, cast)
                 && FinishAll(buf, pos, fs) == FinishAll(buf, next, after)
  {
    hide AtRest, Mirror, MirrorsBelow, FinishAll, Complete, Dup, PutKey, Laid;
    ghost var m, frames := heap.State(), stack[..depth];
    TopIsWritable(m, root, frames, fs, before, cast);
    KeyStep(buf, pos, fs);
    var key := ReadKey(buf, pos);
    if !key.Ok? {
      return Some(Failed<bytes, Cell>(key)), pos, fs;
    }
    KeyRuns(m, root, frames, fs, key.value, before, cast);
    var top := stack[depth - 1];
    assert top == frames[depth - 1];
    DupHolds(TextOf(key.value), m);
    var ref := TakeText(heap, key.value);
    WriteKey(heap, StorePtr(top.container), top.idx, ref);
    ghost var f := fs[depth - 1];
    after := WithTop(fs, f.(keys := f.keys + [key.value]));
    stack[depth - 1] := top.(awaitingValue := true);
    assert stack[..depth] == Retop(frames, top.(awaitingValue := true));
    return None, key.next, after;
  }

  /** A number whose bytes are missing leaves a zero in its slot. */
  predicate LeavesZero(buf: bytes, pos: nat) { pos < |buf| && 0xcc <= buf[pos] <= 0xd3 }

  /** One value into its slot: a scalar whole, or a container to be filled next. */
  method FillValue(heap: ObjectHeap, root: Cell, buf: bytes, pos: nat, stack: array<MpDecFrame>, depth: nat,
      ghost fs: seq<DecFrame>, ghost before: Mem, cast: Cast)
    returns (failure: Option<Result<Cell>>, next: nat, height: nat, ghost after: seq<DecFrame>)
    requires pos <= |buf| && 0 < depth <= stack.Length == TreeSpec.DEPTH_CAP && |fs| == depth && StackOk(fs)
    requires Running(heap.State(), root, stack[..depth], fs, before, cast) && WantsValue(fs[|fs| - 1])
    modifies heap, stack
    ensures AtRest(heap.State(), root, after, before, cast)
    ensures if failure.Some? then !failure.value.Ok? && FinishAll(buf, pos, fs) == Failed<Cell, Obj>(failure.value)
            else pos < next <= |buf| && |after| == height && 0 < height <= TreeSpec.DEPTH_CAP && StackOk(after)
                 && Running(heap.State(), root, stack[..height], after, before, cast)
                 && FinishAll(buf, pos, fs) == FinishAll(buf, next, after)
  {
    hide Running, AtRest, FinishAll, Complete, HeadAt;
    var head := ReadInto(buf, pos, depth);
    next, height := pos, depth;
    if !head.Ok? {
      FailStep(buf, pos, fs);
      failure, after := Some(Failed<Head, Cell>(head)), fs;
      if LeavesZero(buf, pos) { after := PlaceScalar(heap, root, stack, depth, Int(0), fs, before, cast); }
      Rests(heap.State(), root, stack[..depth], after, before, cast);
      return;
    }
    failure, next := None, head.next;
    if head.value.Scalar? {
      ScalarHead(buf, pos, depth);
      ScalarStep(buf, pos, fs);
      after := PlaceScalar(heap, root, stack, depth, head.value.value, fs, before, cast);
    } else {
      OpenStep(buf, pos, fs);
      height, after := depth + 1, fs + [OpenFrame(head.value.container, head.value.count)];
      PlaceContainer(heap, root, stack, depth, head.value.container, head.value.count, fs, before, cast);
    }
    Rests(heap.State(), root, stack[..height], after, before, cast);
  }

  lemma Rests(m: Mem, root: Cell, frames: seq<MpDecFrame>, fs: seq<DecFrame>, before: Mem, cast: Cast)
    requires Running(m, root, frames, fs, before, cast)
    ensures AtRest(m, root, fs, before, cast)
  {
  }

  lemma ScalarHead(buf: bytes, pos: nat, depth: nat)
    requires pos <= |buf|
    ensures var head := HeadAt(buf, pos, depth);
      head.Ok? && head.value.Scalar? ==> !head.value.value.Arr? && !head.value.value.Dict?
  {
  }

  method PlaceContainer(heap: ObjectHeap, root: Cell, stack: array<MpDecFrame>, depth: nat, container: Container,
      count: nat, ghost fs: seq<DecFrame>, ghost before: Mem, ghost cast: Cast)
    requires 0 < depth < stack.Length == TreeSpec.DEPTH_CAP && |fs| == depth
    requires Running(heap.State(), root, stack[..depth], fs, before, cast) && WantsValue(fs[|fs| - 1])
    modifies heap, stack
    ensures Running(heap.State(), root, stack[..depth + 1], fs + [OpenFrame(container, count)], before, cast)
  {
    hide AtRest, Mirror, MirrorsBelow, Laid, Init, PutValue, TreeOf, Blank;
    ghost var m, frames := heap.State(), stack[..depth];
    TopIsWritable(m, root, frames, fs, before, cast);
    OpenRuns(m, root, frames, fs, container, count, before, cast);
    InitHolds(Blank(OpenFrame(container, count)), m);
    var top := stack[depth - 1];
    assert top == frames[depth - 1];
    var c := ContainerSlot(heap, container, count);
    WriteValue(heap, StorePtr(top.container), top.idx, c);
    stack[depth - 1] := top.(idx := top.idx + 1, awaitingValue := false);
    stack[depth] := MpDecFrame(c, container == Map, count, 0, false);
    assert stack[..depth + 1] == Retop(frames, stack[depth - 1]) + [stack[depth]];
  }

  method PlaceScalar(heap: ObjectHeap, root: Cell, stack: array<MpDecFrame>, depth: nat, v: Obj,
      ghost fs: seq<DecFrame>, ghost before: Mem, cast: Cast)
    returns (ghost after: seq<DecFrame>)
    requires 0 < depth <= stack.Length && |fs| == depth && !v.Arr? && !v.Dict?
    requires Running(heap.State(), root, stack[..depth], fs, before, cast) && WantsValue(fs[|fs| - 1])
    modifies heap, stack
    ensures after == WithTop(fs, Plug(fs[|fs| - 1], v)) && |after| == depth
    ensures Running(heap.State(), root, stack[..depth], after, before, cast)
  {
    hide AtRest, Mirror, MirrorsBelow, Laid, Init, PutValue, TreeOf;
    ghost var m, frames := heap.State(), stack[..depth];
    TopIsWritable(m, root, frames, fs, before, cast);
    ScalarRuns(m, root, frames, fs, v, before, cast);
    InitHolds(TreeOf(v, cast), m);
    var top := stack[depth - 1];
    assert top == frames[depth - 1];
    var c := ScalarSlot(heap, v, cast);
    WriteValue(heap, StorePtr(top.container), top.idx, c);
    stack[depth - 1] := top.(idx := top.idx + 1, awaitingValue := false);
    assert stack[..depth] == Retop(frames, stack[depth - 1]);
    after := WithTop(fs, Plug(fs[|fs| - 1], v));
  }

  /** The output is an object in storage of its own. */
  ghost predicate Landed(before: Mem, m: Mem, root: Cell, v: Obj, cast: Cast) {
    && Grown(before, m, 0) && Holds(m.blocks, root, TreeOf(v, cast)) && Depth(TreeOf(v, cast)) <= TreeSpec.DEPTH_CAP
    && multiset(Owned(m.blocks, root, TreeOf(v, cast))) == Range(before.next, m.next)
  }

  lemma CopyLands(before: Mem, m: Mem, root: Cell, v: Obj, cast: Cast)
    requires Sound(before) && Copy(TreeOf(v, cast), before) == (m, root)
    requires Depth(TreeOf(v, cast)) <= TreeSpec.DEPTH_CAP
    ensures Landed(before, m, root, v, cast)
  {
    hide Copy, TreeOf, Holds, Owned, Range, Depth;
    CopyIsFresh(TreeOf(v, cast), before);
  }

  /** Fills the open containers, innermost first, until the outermost one is full or the input fails. */
  method Fill(heap: ObjectHeap, root: Cell, buf: bytes, start: nat, stack: array<MpDecFrame>, ghost first: DecFrame,
      ghost before: Mem, cast: Cast)
    returns (r: Result<Cell>)
    requires start <= |buf| && stack.Length == TreeSpec.DEPTH_CAP && FrameOk(first)
    requires Running(heap.State(), root, stack[..1], [first], before, cast)
    modifies heap, stack
    ensures var whole := Complete(buf, start, 1, first);
      if whole.Ok? then r == Ok(root, whole.next) && Landed(before, heap.State(), root, whole.value, cast)
      else r == Failed<Obj, Cell>(whole) && heap.blocks == before.blocks
  {
    hide AtRest, Mirror, MirrorsBelow, Landed, Laid, FinishAll, Complete;
    var pos, depth: nat := start, 1;
    ghost var fs := [first];
    ghost var goal, built := Complete(buf, start, 1, first), MsgpackSpec.Nil;
    OneFrame(buf, start, first);
    while depth > 0
      invariant pos <= |buf| && depth <= TreeSpec.DEPTH_CAP
      invariant depth > 0 ==> |fs| == depth && StackOk(fs) && FinishAll(buf, pos, fs) == goal
      invariant depth > 0 ==> Running(heap.State(), root, stack[..depth], fs, before, cast)
      invariant depth == 0 ==> goal == Ok(built, pos) && Landed(before, heap.State(), root, built, cast)
      decreases |buf| - pos, depth
    {
      var f := stack[depth - 1];
      ghost var frames := stack[..depth];
      assert f == frames[depth - 1];
      TopIsWritable(heap.State(), root, frames, fs, before, cast);
      if f.idx >= f.remaining {
        ghost var top := fs[depth - 1];
        PopStep(buf, pos, fs);
        depth := depth - 1;
        if depth == 0 {
          built := Built(top);
          Lands(heap.State(), root, fs, before, cast);
        } else {
          PopRuns(heap.State(), root, frames, fs, before, cast);
          fs := WithTop(fs[..depth], Plug(fs[depth - 1], Built(top)));
          assert frames[..depth] == stack[..depth];
        }
      } else {
        var failure;
        if f.isMap && !f.awaitingValue {
          failure, pos, fs := FillKey(heap, root, buf, pos, stack, depth, fs, before, cast);
        } else {
          failure, pos, depth, fs := FillValue(heap, root, buf, pos, stack, depth, fs, before, cast);
        }
        if failure.Some? {
          Release(heap, root, fs, before, cast);
          return failure.value;
        }
      }
    }
    return Ok(root, pos);
  }

  lemma OneFrame(buf: bytes, start: nat, first: DecFrame)
    requires start <= |buf| && FrameOk(first)
    ensures StackOk([first]) && FinishAll(buf, start, [first]) == Complete(buf, start, 1, first)
  {
    assert [first][..0] == [];
  }

  lemma Lands(m: Mem, root: Cell, fs: seq<DecFrame>, before: Mem, cast: Cast)
    requires AtRest(m, root, fs, before, cast) && |fs| == 1 && |fs[0].values| == fs[0].count
    ensures Landed(before, m, root, Built(fs[0]), cast)
  {
    hide Laid, Root, Built, TreeOf, Copy, Landed;
    LastRuns(m, root, fs, before, cast);
    CopyLands(before, m, root, Built(fs[0]), cast);
  }

  /**
   msgpack_to_object: the verdict and the bytes consumed are those of the recursive reading; a value is an object in
   storage of its own, and a failure, wherever it comes, leaves the heap as it was.
   */
  method MsgpackToObject(heap: ObjectHeap, buf: bytes, cast: Cast) returns (r: Result<Cell>)
    requires Sound(heap.State())
    modifies heap
    ensures match Decode(buf)
      case Ok(v, next) => r.Ok? && r.next == next && Landed(old(heap.State()), heap.State(), r.value, v, cast)
      case Incomplete => r == Incomplete && heap.blocks == old(heap.blocks)
      case Malformed(fault) => r == Malformed(fault) && heap.blocks == old(heap.blocks)
  {
    hide Landed, Laid, TreeOf, Init, Complete, HeadAt, Root;
    ghost var before := heap.State();
    var head := ReadInto(buf, 0, 0);
    if !head.Ok? {
      return Failed<Head, Cell>(head);
    }
    if head.value.Scalar? {
      ghost var v := head.value.value;
      ScalarHead(buf, 0, 0);
      var c := ScalarSlot(heap, head.value.value, cast);
      LeafLands(before, v, cast);
      return Ok(c, head.next);
    }
    var container, count := head.value.container, head.value.count;
    ghost var first := OpenFrame(container, count);
    CompleteOpened(buf, 0, 0);
    Started(container, count, before, cast);
    var root := ContainerSlot(heap, container, count);
    var stack := new MpDecFrame[TreeSpec.DEPTH_CAP](_ => MpDecFrame(root, false, 0, 0, false));
    stack[0] := MpDecFrame(root, container == Map, count, 0, false);
    assert stack[..1] == [stack[0]];
    r := Fill(heap, root, buf, head.next, stack, first, before, cast);
  }

  lemma LeafLands(before: Mem, v: Obj, cast: Cast)
    requires Sound(before) && !v.Arr? && !v.Dict?
    ensures var (m, c) := Init(TreeOf(v, cast), before); Landed(before, m, c, v, cast)
  {
    hide Init, Landed;
    CopyLands(before, Copy(TreeOf(v, cast), before).0, Init(TreeOf(v, cast), before).1, v, cast);
  }

  lemma Started(container: Container, count: nat, before: Mem, cast: Cast)
    requires Sound(before)
    ensures var first := OpenFrame(container, count);
      var (m, root) := Init(Blank(first), before);
      Running(m, root, [MpDecFrame(root, container == Map, count, 0, false)], [first], before, cast)
  {
    hide Init, Blank;
    var none: seq<DecFrame> := [];
    OpenLaid(none, container, count, before, cast);
    assert none + [OpenFrame(container, count)] == [OpenFrame(container, count)];
    var (_, root) := Init(Blank(OpenFrame(container, count)), before);
    assert [MpDecFrame(root, container == Map, count, 0, false)][..0] == [];
    assert [OpenFrame(container, count)][..0] == [];
  }
}
