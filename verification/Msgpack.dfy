/** The iterative MessagePack codec of src/mua/msgpack.c, proved against MsgpackSpec. */
module Msgpack {
  import opened Bytes
  import opened MsgpackSpec
  import Laws = MsgpackLaws

  const TWO_TO_64 := 0x1_0000_0000_0000_0000

  // ----- encoding -----

  /** The conversion of a signed 64-bit integer to its unsigned machine word. */
  function Word(v: int): nat
    requires -TWO_TO_64 <= v
  {
    if v < 0 then v + TWO_TO_64 else v
  }

  lemma LowBytesOfWord(v: int, n: nat)
    requires -TWO_TO_64 <= v && n <= 8
    ensures BigEndian(Word(v), n) == BigEndian(v, n)
  {
    Laws.Powers();
    if v < 0 {
      Laws.BigEndianOfWord(v, 8, n);
    }
  }

  datatype EncFrame = EncFrame(container: Obj, next: nat)

  predicate IsContainer(o: Obj) { o.Arr? || o.Dict? }

  function Size(o: Obj): nat
    requires IsContainer(o)
  {
    if o.Arr? then |o.items| else |o.pairs|
  }

  /** The frame at height `k`: its remaining children are encodable and fit below the cap. */
  ghost predicate EncFrameOk(f: EncFrame, k: nat) {
    && IsContainer(f.container) && f.next <= Size(f.container)
    && match f.container
       case Arr(items) => EncodableItems(items[f.next..]) && k + 1 + NestingItems(items[f.next..]) <= DEPTH_CAP
       case Dict(pairs) => EncodablePairs(pairs[f.next..]) && k + 1 + NestingPairs(pairs[f.next..]) <= DEPTH_CAP
       case _ => false
  }

  ghost predicate EncStackOk(fs: seq<EncFrame>) {
    fs != [] ==> EncFrameOk(fs[|fs| - 1], |fs| - 1) && EncStackOk(fs[..|fs| - 1])
  }

  ghost function RestOf(f: EncFrame, k: nat): bytes
    requires EncFrameOk(f, k)
  {
    if f.container.Arr? then EncItems(f.container.items[f.next..]) else EncPairs(f.container.pairs[f.next..])
  }

  /** What the frames still owe, innermost first. */
  ghost function Pending(fs: seq<EncFrame>): bytes
    requires EncStackOk(fs)
  {
    if fs == [] then [] else
      var k := |fs| - 1;
      RestOf(fs[k], k) + Pending(fs[..k])
  }

  class MsgpackBuffer {
    var block: bytes
    var size: nat

    predicate Valid()
      reads this
    {
      size <= |block|
    }

    function Contents(): (s: bytes)
      requires Valid()
      reads this
      ensures |s| == size
    {
      block[..size]
    }

    constructor ()
      ensures Valid() && Contents() == []
    {
      block, size := [], 0;
    }

    method Reserve(extra: nat)
      requires Valid()
      modifies this`block
      ensures Valid() && Contents() == old(Contents()) && size + extra <= |block|
    {
      if size + extra <= |block| {
        return;
      }
      var cap := if |block| != 0 then |block| else 64;
      while cap < size + extra
        invariant cap >= |block| && cap > 0
      {
        cap := cap * 2;
      }
      block := block + seq(cap - |block|, _ => 0);
    }

    method Put(b: byte)
      requires Valid()
      modifies this
      ensures Valid() && Contents() == old(Contents()) + [b]
    {
      Reserve(1);
      block := block[size := b];
      size := size + 1;
    }

    method PutBytes(src: bytes)
      requires Valid()
      modifies this
      ensures Valid() && Contents() == old(Contents()) + src
    {
      Reserve(|src|);
      if |src| > 0 {
        block := block[..size] + src + block[size + |src|..];
        size := size + |src|;
      }
    }

    /** The low `n` bytes of the machine word `v`. */
    method PutBigEndian(v: nat, n: nat)
      requires Valid()
      modifies this
      ensures Valid() && Contents() == old(Contents()) + BigEndian(v, n)
    {
      var i := n;
      assert old(Contents()) + BigEndian(v, n) == Contents() + BigEndian(v, i);
      while i > 0
        invariant Valid()
        invariant Contents() + BigEndian(v, i) == old(Contents()) + BigEndian(v, n)
      {
        Laws.BigEndianFront(v, i);
        i := i - 1;
        ghost var before := Contents();
        Put(ShiftedRight(v, i) % 256);
        assert Contents() + BigEndian(v, i) == before + BigEndian(v, i + 1);
      }
      assert BigEndian(v, 0) == [];
    }

    method PutNumber(format: byte, v: int, n: nat)
      requires Valid() && n <= 8 && -TWO_TO_64 <= v
      modifies this
      ensures Valid() && Contents() == old(Contents()) + ([format] + BigEndian(v, n))
    {
      Put(format);
      LowBytesOfWord(v, n);
      PutBigEndian(Word(v), n);
    }

    method EmitInt(v: int)
      requires Valid() && INT64_MIN <= v <= INT64_MAX
      modifies this
      ensures Valid() && Contents() == old(Contents()) + EncInt(v)
    {
      if -32 <= v <= 0x7f {
        Put(v % 256);
      } else if v >= 0 {
        if v <= 0xff {
          PutNumber(0xcc, v, 1);
        } else if v <= 0xffff {
          PutNumber(0xcd, v, 2);
        } else if v <= 0xffff_ffff {
          PutNumber(0xce, v, 4);
        } else {
          PutNumber(0xcf, v, 8);
        }
      } else if v >= -128 {
        PutNumber(0xd0, v, 1);
      } else if v >= -32768 {
        PutNumber(0xd1, v, 2);
      } else if v >= -0x8000_0000 {
        PutNumber(0xd2, v, 4);
      } else {
        PutNumber(0xd3, v, 8);
      }
    }

    /** A length-prefixed count: inline in the format byte, or in two or four bytes after it. */
    method EmitCount(n: nat, fix: byte, f16: byte, f32: byte, ghost kind: CountKind)
      requires Valid()
      requires match kind
               case StrCount => fix == 0xa0 && f16 == 0xda && f32 == 0xdb
               case ArrCount => fix == 0x90 && f16 == 0xdc && f32 == 0xdd
               case MapCount => fix == 0x80 && f16 == 0xde && f32 == 0xdf
      modifies this
      ensures Valid() && Contents() == old(Contents()) + EncCount(n, kind)
    {
      var fixMax := if fix == 0xa0 then 0x1f else 0x0f;
      if n <= fixMax {
        Put(fix + n);
      } else if n <= 0xffff {
        PutNumber(f16, n, 2);
      } else {
        PutNumber(f32, n, 4);
      }
    }

    method EmitStr(s: bytes)
      requires Valid()
      modifies this
      ensures Valid() && Contents() == old(Contents()) + EncStr(s)
    {
      EmitCount(|s|, 0xa0, 0xda, 0xdb, StrCount);
      PutBytes(s);
    }

    method EncodeArrayHeader(n: nat)
      requires Valid()
      modifies this
      ensures Valid() && Contents() == old(Contents()) + EncCount(n, ArrCount)
    {
      EmitCount(n, 0x90, 0xdc, 0xdd, ArrCount);
    }

    /** A scalar whole, or a container's header. */
    method EmitNode(o: Obj)
      requires Valid() && Encodable(o)
      modifies this
      ensures Valid() && Contents() == old(Contents()) + EncNode(o)
    {
      match o
      case Nil => Put(0xc0);
      case Session => Put(0xc0);
      case Bool(b) => Put(if b then 0xc3 else 0xc2);
      case Int(i) => EmitInt(i);
      case Float(f) => PutNumber(0xcb, f.bits, 8);
      case Str(s) => EmitStr(s);
      case Arr(items) => EncodeArrayHeader(|items|);
      case Dict(pairs) => EmitCount(|pairs|, 0x80, 0xde, 0xdf, MapCount);
    }

    /** Appends the encoding of `o`; the walk keeps its open containers on a stack of fixed size. */
    method Encode(o: Obj)
      requires Valid() && Encodable(o) && Nesting(o) <= DEPTH_CAP
      modifies this
      ensures Valid() && Contents() == old(Contents()) + Enc(o)
    {
      EmitNode(o);
      if !IsContainer(o) {
        return;
      }
      var stack := new EncFrame[DEPTH_CAP](_ => EncFrame(Nil, 0));
      stack[0] := EncFrame(o, 0);
      FirstFrame(old(Contents()), o);
      Walk(stack, EncFrame(o, 0));
    }

    /** Serves the open containers until none is left. */
    method Walk(stack: array<EncFrame>, ghost root: EncFrame)
      requires Valid() && stack.Length == DEPTH_CAP && stack[0] == root && EncStackOk([root])
      modifies this, stack
      ensures Valid() && Contents() == old(Contents()) + Pending([root])
    {
      hide EncFrameOk, EncStackOk, Pending, RestOf;
      var depth: nat := 1;
      ghost var fs := [root];
      NothingPending();
      ghost var goal := Contents() + Pending(fs);
      while depth > 0
        invariant Valid() && depth <= DEPTH_CAP && fs == stack[..depth] && EncStackOk(fs)
        invariant Contents() + Pending(fs) == goal
        decreases |Pending(fs)|, depth
      {
        var f := stack[depth - 1];
        assert f == fs[depth - 1];
        TopFrame(fs);
        if f.next >= Size(f.container) {
          Exhausted(fs);
          depth := depth - 1;
          fs := fs[..depth];
        } else {
          depth, fs := Serve(stack, depth, fs);
        }
      }
      assert Contents() + [] == Contents();
    }

    /** Serves one child of the innermost container, opening it if it is a container itself. */
    method Serve(stack: array<EncFrame>, depth: nat, ghost fs: seq<EncFrame>)
      returns (next: nat, ghost after: seq<EncFrame>)
      requires Valid() && stack.Length == DEPTH_CAP && 0 < depth <= DEPTH_CAP && fs == stack[..depth] && EncStackOk(fs)
      requires var f := stack[depth - 1]; IsContainer(f.container) && f.next < Size(f.container)
      modifies this, stack
      ensures Valid() && next <= DEPTH_CAP && after == stack[..next] && EncStackOk(after)
      ensures Contents() + Pending(after) == old(Contents()) + Pending(fs)
      ensures |Pending(after)| < |Pending(fs)|
    {
      assert stack[depth - 1] == fs[depth - 1];
      var child := EmitChild(stack[depth - 1], fs);
      next := Replace(stack, depth, fs, child);
      after := Descended(fs);
    }

    /** The frame has served `child`; its own frame goes on top when it is a container. */
    method Replace(stack: array<EncFrame>, depth: nat, ghost fs: seq<EncFrame>, child: Obj) returns (next: nat)
      requires stack.Length == DEPTH_CAP && 0 < depth <= DEPTH_CAP && fs == stack[..depth]
      requires var f := stack[depth - 1];
               IsContainer(f.container) && f.next < Size(f.container) && child == ChildAt(f)
      requires IsContainer(child) ==> depth < DEPTH_CAP
      modifies stack
      ensures next <= DEPTH_CAP && stack[..next] == Descended(fs)
    {
      var f := stack[depth - 1];
      stack[depth - 1] := EncFrame(f.container, f.next + 1);
      ghost var rest := fs[..depth - 1] + [EncFrame(f.container, f.next + 1)];
      assert stack[..depth] == rest;
      next := depth;
      if IsContainer(child) {
        stack[depth] := EncFrame(child, 0);
        next := depth + 1;
        assert stack[..next] == rest + [EncFrame(child, 0)];
      }
    }

    /** One child of the innermost frame: its key, if it has one, and its node. */
    method EmitChild(f: EncFrame, ghost fs: seq<EncFrame>) returns (child: Obj)
      requires Valid() && EncStackOk(fs) && fs != [] && f == fs[|fs| - 1]
      requires IsContainer(f.container) && f.next < Size(f.container)
      modifies this
      ensures Valid() && child == ChildAt(f) && EncStackOk(Descended(fs))
      ensures IsContainer(child) ==> |fs| < DEPTH_CAP
      ensures Contents() + Pending(Descended(fs)) == old(Contents()) + Pending(fs)
      ensures |Pending(Descended(fs))| < |Pending(fs)|
    {
      Descend(fs);
      ghost var was := Contents();
      child := EmitKeyAndNode(f);
      Regroup(was, Emitted(f), Pending(Descended(fs)), []);
    }

    method EmitKeyAndNode(f: EncFrame) returns (child: Obj)
      requires Valid() && IsContainer(f.container) && f.next < Size(f.container) && Encodable(ChildAt(f))
      modifies this
      ensures Valid() && child == ChildAt(f) && Contents() == old(Contents()) + Emitted(f)
    {
      ghost var key := KeyBytes(f);
      if f.container.Dict? {
        EmitStr(f.container.pairs[f.next].key);
      }
      child := ChildAt(f);
      assert Contents() == old(Contents()) + key;
      ghost var node := EncNode(child);
      EmitNode(child);
      Regroup(old(Contents()), key, node, []);
    }
  }

  lemma NothingPending()
    ensures EncStackOk([]) && Pending([]) == []
  {
  }

  /** An open frame is a container that has served at most all of its children. */
  lemma TopFrame(fs: seq<EncFrame>)
    requires EncStackOk(fs) && fs != []
    ensures var f := fs[|fs| - 1]; IsContainer(f.container) && f.next <= Size(f.container)
  {
  }

  /** A frame with no child left owes nothing. */
  lemma Exhausted(fs: seq<EncFrame>)
    requires EncStackOk(fs) && fs != []
    requires var f := fs[|fs| - 1]; IsContainer(f.container) && f.next == Size(f.container)
    ensures EncStackOk(fs[..|fs| - 1]) && Pending(fs) == Pending(fs[..|fs| - 1])
  {
    var k := |fs| - 1;
    assert RestOf(fs[k], k) == [];
    assert [] + Pending(fs[..k]) == Pending(fs[..k]);
  }

  function ChildAt(f: EncFrame): Obj
    requires IsContainer(f.container) && f.next < Size(f.container)
  {
    if f.container.Arr? then f.container.items[f.next] else f.container.pairs[f.next].value
  }

  /** Opening a container owes exactly its children. */
  lemma PushedFrame(fs: seq<EncFrame>, o: Obj)
    requires EncStackOk(fs) && IsContainer(o) && Encodable(o) && |fs| + Nesting(o) <= DEPTH_CAP
    ensures EncStackOk(fs + [EncFrame(o, 0)])
    ensures EncNode(o) + Pending(fs + [EncFrame(o, 0)]) == Enc(o) + Pending(fs)
  {
    var top := EncFrame(o, 0);
    OpenedFrame(o, |fs|);
    TopOf(fs, top);
    Regroup(EncNode(o), RestOf(top, |fs|), Pending(fs), []);
  }

  lemma FirstFrame(before: bytes, o: Obj)
    requires IsContainer(o) && Encodable(o) && Nesting(o) <= DEPTH_CAP
    ensures EncStackOk([EncFrame(o, 0)])
    ensures (before + EncNode(o)) + Pending([EncFrame(o, 0)]) == before + Enc(o)
  {
    PushedFrame([], o);
    assert [] + [EncFrame(o, 0)] == [EncFrame(o, 0)];
    Regroup(before, EncNode(o), Pending([EncFrame(o, 0)]), []);
    assert Enc(o) + [] == Enc(o);
  }

  lemma OpenedFrame(o: Obj, k: nat)
    requires IsContainer(o) && Encodable(o) && k + Nesting(o) <= DEPTH_CAP
    ensures EncFrameOk(EncFrame(o, 0), k) && EncNode(o) + RestOf(EncFrame(o, 0), k) == Enc(o)
  {
    if o.Arr? { assert o.items[0..] == o.items; } else { assert o.pairs[0..] == o.pairs; }
  }

  function KeyBytes(f: EncFrame): bytes
    requires IsContainer(f.container) && f.next < Size(f.container)
  {
    if f.container.Arr? then [] else EncStr(f.container.pairs[f.next].key)
  }

  /** What serving the next child of a frame puts on the wire. */
  function Emitted(f: EncFrame): (b: bytes)
    requires IsContainer(f.container) && f.next < Size(f.container) && Encodable(ChildAt(f))
    ensures |b| >= 1
  {
    KeyBytes(f) + EncNode(ChildAt(f))
  }

  /** The stack once the innermost frame's next child has been served. */
  ghost function Descended(fs: seq<EncFrame>): seq<EncFrame>
    requires fs != [] && var f := fs[|fs| - 1]; IsContainer(f.container) && f.next < Size(f.container)
  {
    var f := fs[|fs| - 1];
    var rest := fs[..|fs| - 1] + [EncFrame(f.container, f.next + 1)];
    if IsContainer(ChildAt(f)) then rest + [EncFrame(ChildAt(f), 0)] else rest
  }

  /** A frame's next child is the front of what the frame owes. */
  lemma AdvanceFrame(f: EncFrame, k: nat)
    requires EncFrameOk(f, k) && f.next < Size(f.container)
    ensures var g := EncFrame(f.container, f.next + 1);
            && EncFrameOk(g, k) && Encodable(ChildAt(f)) && k + 1 + Nesting(ChildAt(f)) <= DEPTH_CAP
            && RestOf(f, k) == KeyBytes(f) + Enc(ChildAt(f)) + RestOf(g, k)
  {
    if f.container.Arr? {
      var rest := f.container.items[f.next..];
      assert rest[0] == ChildAt(f) && rest[1..] == f.container.items[f.next + 1..];
      assert [] + Enc(ChildAt(f)) == Enc(ChildAt(f));
    } else {
      var rest := f.container.pairs[f.next..];
      assert rest[0] == f.container.pairs[f.next] && rest[1..] == f.container.pairs[f.next + 1..];
    }
  }

  lemma Advance(fs: seq<EncFrame>)
    requires EncStackOk(fs) && fs != []
    requires var f := fs[|fs| - 1]; IsContainer(f.container) && f.next < Size(f.container)
    ensures var k := |fs| - 1;
            var f := fs[k];
            var rest := fs[..k] + [EncFrame(f.container, f.next + 1)];
            && EncStackOk(rest) && Encodable(ChildAt(f)) && k + 1 + Nesting(ChildAt(f)) <= DEPTH_CAP
            && Pending(fs) == KeyBytes(f) + Enc(ChildAt(f)) + Pending(rest)
  {
    var k := |fs| - 1;
    var f := fs[k];
    var g := EncFrame(f.container, f.next + 1);
    AdvanceFrame(f, k);
    TopOf(fs[..k], g);
    Regroup(KeyBytes(f), Enc(ChildAt(f)), RestOf(g, k), Pending(fs[..k]));
  }

  lemma TopOf(fs: seq<EncFrame>, top: EncFrame)
    requires EncStackOk(fs) && EncFrameOk(top, |fs|)
    ensures EncStackOk(fs + [top])
    ensures Pending(fs + [top]) == RestOf(top, |fs|) + Pending(fs)
  {
    assert (fs + [top])[..|fs|] == fs;
  }

  lemma Regroup(a: bytes, b: bytes, c: bytes, d: bytes)
    ensures (a + b + c) + d == a + b + (c + d)
    ensures (a + b) + c == a + (b + c)
  {
  }

  /** What a stack owes is what serving the next child emits, and what the stack owes afterwards. */
  lemma Descend(fs: seq<EncFrame>)
    requires EncStackOk(fs) && fs != []
    requires var f := fs[|fs| - 1]; IsContainer(f.container) && f.next < Size(f.container)
    ensures var f := fs[|fs| - 1];
            && Encodable(ChildAt(f)) && EncStackOk(Descended(fs)) && |Descended(fs)| <= |fs| + 1
            && Pending(fs) == Emitted(f) + Pending(Descended(fs))
            && (IsContainer(ChildAt(f)) ==> |fs| < DEPTH_CAP)
  {
    var k := |fs| - 1;
    var f := fs[k];
    var child := ChildAt(f);
    var rest := fs[..k] + [EncFrame(f.container, f.next + 1)];
    Advance(fs);
    if IsContainer(child) {
      var owed := Pending(rest + [EncFrame(child, 0)]);
      assert EncNode(child) + owed == Enc(child) + Pending(rest) by { PushedFrame(rest, child); }
      Regroup(KeyBytes(f), Enc(child), Pending(rest), []);
      Regroup(KeyBytes(f), EncNode(child), owed, []);
    }
  }
}
