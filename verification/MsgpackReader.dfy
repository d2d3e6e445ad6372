/**
 The reading of one MessagePack header in src/mua/msgpack.c, proved against MsgpackSpec, and the containers that are
 open while a value is decoded.
 */
module MsgpackReader {
  import opened Bytes
  import opened MsgpackSpec

  // ----- one header -----

  method BigEndianValue(p: bytes) returns (v: nat)
    ensures v == FromBigEndian(p)
  {
    v := 0;
    for i := 0 to |p|
      invariant v == FromBigEndian(p[..i])
    {
      assert p[..i + 1][..i] == p[..i];
      v := v * 256 + p[i];
    }
    assert p[..|p|] == p;
  }

  /** The `n`-byte number after the format byte at `pos`. */
  method TakeUint(buf: bytes, pos: nat, n: nat) returns (r: Result<nat>)
    requires pos < |buf|
    ensures r == if |buf| - pos < n + 1 then Incomplete else Ok(Payload(buf, pos, n), pos + 1 + n)
  {
    if |buf| - pos < n + 1 {
      return Incomplete;
    }
    var v := BigEndianValue(buf[pos + 1..pos + 1 + n]);
    return Ok(v, pos + n + 1);
  }

  /** A string body that starts `header` bytes after `pos`. */
  method TakeStr(buf: bytes, pos: nat, header: nat, len: nat) returns (r: Result<bytes>)
    requires pos + header <= |buf|
    ensures r == StrAt(buf, pos + header, len)
  {
    if |buf| - pos < header || |buf| - pos - header < len {
      return Incomplete;
    }
    return Ok(buf[pos + header..pos + header + len], pos + header + len);
  }

  /** A string whose length is in the `n` bytes after the format byte. */
  method TakeLongStr(buf: bytes, pos: nat, n: nat) returns (r: Result<bytes>)
    requires pos < |buf|
    ensures r == if |buf| - pos < n + 1 then Incomplete else StrAt(buf, pos + 1 + n, Payload(buf, pos, n))
  {
    if |buf| - pos < n + 1 {
      return Incomplete;
    }
    var len := BigEndianValue(buf[pos + 1..pos + 1 + n]);
    r := TakeStr(buf, pos, n + 1, len);
  }

  /** Whether a container of `count` elements may be opened: never before the bytes could all be there. */
  method OpenContainer(buf: bytes, pos: nat, header: nat, count: nat, container: Container, depth: nat)
    returns (r: Result<Head>)
    requires pos + header <= |buf|
    ensures r == OpenAt(buf, pos + header, container, count, depth)
  {
    if count > |buf| - pos - header {
      return Incomplete;
    }
    if depth >= DEPTH_CAP {
      return Malformed(TooDeep);
    }
    return Ok(Open(container, count), pos + header);
  }

  method OpenLong(buf: bytes, pos: nat, n: nat, container: Container, depth: nat) returns (r: Result<Head>)
    requires pos < |buf|
    ensures r == if |buf| - pos < n + 1 then Incomplete
                 else OpenAt(buf, pos + 1 + n, container, Payload(buf, pos, n), depth)
  {
    if |buf| - pos < n + 1 {
      return Incomplete;
    }
    var count := BigEndianValue(buf[pos + 1..pos + 1 + n]);
    r := OpenContainer(buf, pos, n + 1, count, container, depth);
  }

  /** The fixed-width numbers, formats 0xca to 0xd3. */
  method ReadNumber(b: byte, buf: bytes, pos: nat) returns (r: Result<Head>)
    requires pos < |buf| && b == buf[pos] && 0xca <= b <= 0xd3
    ensures r == HeadAt(buf, pos, 0)
  {
    var width := if b == 0xcc || b == 0xd0 then 1 else if b == 0xcd || b == 0xd1 then 2
                 else if b == 0xca || b == 0xce || b == 0xd2 then 4 else 8;
    var taken := TakeUint(buf, pos, width);
    if taken.Incomplete? {
      return Incomplete;
    }
    var u, next := taken.value, taken.next;
    if b == 0xca {
      r := Ok(Scalar(Float(Widened(u))), next);
    } else if b == 0xcb {
      r := Ok(Scalar(Float(Pattern(u))), next);
    } else if b <= 0xcf {
      r := Ok(Scalar(if u <= INT64_MAX then Int(u) else Float(Rounded(u))), next);
    } else {
      r := Ok(Scalar(Int(Signed(u, width))), next);
    }
  }

  method ReadExt(b: byte, buf: bytes, pos: nat, depth: nat) returns (r: Result<Head>)
    requires pos < |buf| && b == buf[pos] && (b == 0xc1 || 0xc4 <= b <= 0xdf)
    ensures r == HeadAt(buf, pos, depth)
  {
    if 0xca <= b <= 0xd3 {
      r := ReadNumber(b, buf, pos);
      return;
    }
    var width := if b == 0xc4 || b == 0xd9 then 1
                 else if b == 0xc5 || b == 0xda || b == 0xdc || b == 0xde then 2
                 else 4;
    match b {
      case 0xc4 | 0xc5 | 0xc6 | 0xd9 | 0xda | 0xdb =>
        var s := TakeLongStr(buf, pos, width);
        r := AsScalar(s);
      case 0xdc | 0xdd => r := OpenLong(buf, pos, width, Array, depth);
      case 0xde | 0xdf => r := OpenLong(buf, pos, width, Map, depth);
      case _ => r := Malformed(Unsupported(b));
    }
  }

  /** One value's header: a scalar complete, or a container still to be filled. */
  method ReadInto(buf: bytes, pos: nat, depth: nat) returns (r: Result<Head>)
    requires pos <= |buf|
    ensures r == HeadAt(buf, pos, depth)
  {
    if |buf| - pos < 1 {
      return Incomplete;
    }
    var b: int := buf[pos];
    if b <= 0x7f {
      r := Ok(Scalar(Int(b)), pos + 1);
    } else if b >= 0xe0 {
      r := Ok(Scalar(Int(b - 256)), pos + 1);
    } else if 0x80 <= b <= 0x8f {
      r := OpenContainer(buf, pos, 1, b - 0x80, Map, depth);
    } else if 0x90 <= b <= 0x9f {
      r := OpenContainer(buf, pos, 1, b - 0x90, Array, depth);
    } else if 0xa0 <= b <= 0xbf {
      var s := TakeStr(buf, pos, 1, b - 0xa0);
      r := AsScalar(s);
    } else if b == 0xc0 {
      r := Ok(Scalar(Nil), pos + 1);
    } else if b == 0xc2 || b == 0xc3 {
      r := Ok(Scalar(Bool(b == 0xc3)), pos + 1);
    } else {
      r := ReadExt(b, buf, pos, depth);
    }
  }

  /** A map key, which must be a string. */
  method ReadKey(buf: bytes, pos: nat) returns (r: Result<bytes>)
    requires pos <= |buf|
    ensures r == KeyAt(buf, pos)
  {
    if |buf| - pos < 1 {
      return Incomplete;
    }
    var b := buf[pos];
    if 0xa0 <= b <= 0xbf {
      r := TakeStr(buf, pos, 1, b - 0xa0);
    } else if b == 0xd9 {
      r := TakeLongStr(buf, pos, 1);
    } else if b == 0xda {
      r := TakeLongStr(buf, pos, 2);
    } else if b == 0xdb {
      r := TakeLongStr(buf, pos, 4);
    } else {
      r := Malformed(KeyNotString);
    }
  }

  // ----- the stack of containers being filled -----

  /** `values` are the elements read so far; a map's `keys` run one ahead while a value is awaited. */
  datatype DecFrame = DecFrame(container: Container, count: nat, keys: seq<bytes>, values: seq<Obj>)

  predicate Awaiting(f: DecFrame) { f.container == Map && |f.keys| == |f.values| + 1 }

  predicate FrameOk(f: DecFrame) {
    && |f.values| <= f.count
    && (if f.container == Map then |f.keys| == |f.values| || (Awaiting(f) && |f.values| < f.count) else f.keys == [])
  }

  function Zip(keys: seq<bytes>, values: seq<Obj>): seq<Pair>
    requires |keys| >= |values|
  {
    seq(|values|, i requires 0 <= i < |values| => Pair(keys[i], values[i]))
  }

  function Built(f: DecFrame): Obj
    requires FrameOk(f)
  {
    if f.container == Array then Arr(f.values) else Dict(Zip(f.keys, f.values))
  }

  function OpenFrame(container: Container, count: nat): DecFrame {
    DecFrame(container, count, [], [])
  }

  /** A value may be read into the frame now. */
  predicate WantsValue(f: DecFrame) {
    FrameOk(f) && |f.values| < f.count && (f.container == Map ==> Awaiting(f))
  }

  function Plug(f: DecFrame, v: Obj): (g: DecFrame)
    requires WantsValue(f)
    ensures FrameOk(g)
  {
    f.(values := f.values + [v])
  }

  /** Reading on until the frame is full. */
  function Complete(buf: bytes, pos: nat, depth: nat, f: DecFrame): (r: Result<Obj>)
    requires pos <= |buf| && FrameOk(f)
    ensures r.Ok? ==> pos <= r.next <= |buf|
  {
    var left := f.count - |f.values|;
    if f.container == Array then PrependItems(f.values, DecItems(buf, pos, depth, left))
    else if Awaiting(f) then PrependPairs(Zip(f.keys, f.values), DecKeyed(buf, pos, depth, f.keys[|f.values|], left))
    else PrependPairs(Zip(f.keys, f.values), DecPairs(buf, pos, depth, left))
  }

  function PrependItems(before: seq<Obj>, r: Result<seq<Obj>>): Result<Obj> {
    match r
    case Ok(items, next) => Ok(Arr(before + items), next)
    case Incomplete => Incomplete
    case Malformed(fault) => Malformed(fault)
  }

  function PrependPairs(before: seq<Pair>, r: Result<seq<Pair>>): Result<Obj> {
    match r
    case Ok(pairs, next) => Ok(Dict(before + pairs), next)
    case Incomplete => Incomplete
    case Malformed(fault) => Malformed(fault)
  }

  ghost predicate StackOk(fs: seq<DecFrame>) {
    fs == [] || (FrameOk(fs[|fs| - 1]) && BelowOk(fs[..|fs| - 1]))
  }

  /** Every frame under the top waits for the value the frame above it builds. */
  ghost predicate BelowOk(fs: seq<DecFrame>) {
    fs == [] || (WantsValue(fs[|fs| - 1]) && BelowOk(fs[..|fs| - 1]))
  }

  /** Reading on until every open container is full. */
  ghost function FinishAll(buf: bytes, pos: nat, fs: seq<DecFrame>): Result<Obj>
    requires pos <= |buf| && fs != [] && StackOk(fs)
    decreases |fs|
  {
    var k := |fs| - 1;
    Deliver(buf, Complete(buf, pos, |fs|, fs[k]), fs[..k])
  }

  /** What a finished (or failed) value does to the containers around it. */
  ghost function Deliver(buf: bytes, r: Result<Obj>, below: seq<DecFrame>): Result<Obj>
    requires BelowOk(below) && (r.Ok? ==> r.next <= |buf|)
    decreases |below|, 0
  {
    if !r.Ok? || below == [] then r
    else
      var k := |below| - 1;
      var top := Plug(below[k], r.value);
      Deliver(buf, Complete(buf, r.next, |below|, top), below[..k])
  }

  lemma {:induction false} CompleteFull(buf: bytes, pos: nat, depth: nat, f: DecFrame)
    requires pos <= |buf| && FrameOk(f) && |f.values| == f.count
    ensures Complete(buf, pos, depth, f) == Ok(Built(f), pos)
  {
    if f.container == Array {
      assert f.values + [] == f.values;
    } else {
      assert Zip(f.keys, f.values) + [] == Zip(f.keys, f.values);
    }
  }

  /** A key, then its value. */
  lemma {:induction false} CompleteKey(buf: bytes, pos: nat, depth: nat, f: DecFrame)
    requires pos <= |buf| && FrameOk(f) && f.container == Map && !Awaiting(f) && |f.values| < f.count
    ensures var key := KeyAt(buf, pos);
            Complete(buf, pos, depth, f) ==
            match key
            case Ok(k, next) => Complete(buf, next, depth, f.(keys := f.keys + [k]))
            case Incomplete => Incomplete
            case Malformed(fault) => Malformed(fault)
  {
    var key := KeyAt(buf, pos);
    if key.Ok? {
      assert Zip(f.keys + [key.value], f.values) == Zip(f.keys, f.values);
    }
  }

  lemma PrependItemsShift(before: seq<Obj>, v: Obj, r: Result<seq<Obj>>)
    ensures PrependItems(before, AddItem(v, r)) == PrependItems(before + [v], r)
  {
    if r.Ok? {
      assert before + ([v] + r.value) == (before + [v]) + r.value;
    }
  }

  lemma PrependPairsShift(before: seq<Pair>, p: Pair, r: Result<seq<Pair>>)
    ensures PrependPairs(before, AddPair(p, r)) == PrependPairs(before + [p], r)
  {
    if r.Ok? {
      assert before + ([p] + r.value) == (before + [p]) + r.value;
    }
  }

  /** The next value goes into the frame, or its failure is the frame's. */
  lemma {:induction false} CompleteValue(buf: bytes, pos: nat, depth: nat, f: DecFrame)
    requires pos <= |buf| && WantsValue(f)
    ensures var value := DecValue(buf, pos, depth);
            Complete(buf, pos, depth, f) ==
            match value
            case Ok(v, next) => Complete(buf, next, depth, Plug(f, v))
            case Incomplete => Incomplete
            case Malformed(fault) => Malformed(fault)
  {
    var value, left := DecValue(buf, pos, depth), f.count - |f.values|;
    if value.Ok? {
      if f.container == Array {
        assert DecItems(buf, pos, depth, left) == AddItem(value.value, DecItems(buf, value.next, depth, left - 1));
        PrependItemsShift(f.values, value.value, DecItems(buf, value.next, depth, left - 1));
      } else {
        var pair := Pair(f.keys[|f.values|], value.value);
        var rest := DecPairs(buf, value.next, depth, left - 1);
        assert DecKeyed(buf, pos, depth, pair.key, left) == AddPair(pair, rest);
        assert Zip(f.keys, f.values + [value.value]) == Zip(f.keys, f.values) + [pair];
        PrependPairsShift(Zip(f.keys, f.values), pair, rest);
      }
    }
  }

  /** Opening a container and filling it is decoding it. */
  lemma {:induction false} CompleteOpened(buf: bytes, pos: nat, depth: nat)
    requires pos <= |buf| && HeadAt(buf, pos, depth).Ok? && HeadAt(buf, pos, depth).value.Open?
    ensures var head := HeadAt(buf, pos, depth);
            DecValue(buf, pos, depth) ==
            Complete(buf, head.next, depth + 1, OpenFrame(head.value.container, head.value.count))
  {
    var head := HeadAt(buf, pos, depth);
    if head.value.container == Array {
      PrependNoItems(DecItems(buf, head.next, depth + 1, head.value.count));
    } else {
      PrependNoPairs(DecPairs(buf, head.next, depth + 1, head.value.count));
    }
  }

  lemma PrependNoItems(r: Result<seq<Obj>>)
    ensures PrependItems([], r) == AsArr(r)
  {
    if r.Ok? { assert [] + r.value == r.value; }
  }

  lemma PrependNoPairs(r: Result<seq<Pair>>)
    ensures PrependPairs(Zip([], []), r) == AsDict(r)
  {
    if r.Ok? { assert Zip([], []) + r.value == r.value; }
  }

  /** A failure, as a failure to read something else. */
  function Failed<T, U>(r: Result<T>): Result<U>
    requires !r.Ok?
  {
    if r.Incomplete? then Incomplete else Malformed(r.fault)
  }

  // ----- one step of the walk -----

  ghost function WithTop(fs: seq<DecFrame>, top: DecFrame): seq<DecFrame>
    requires fs != []
  {
    fs[..|fs| - 1] + [top]
  }

  /** A full container is a value for the container below it, or the result. */
  lemma PopStep(buf: bytes, pos: nat, fs: seq<DecFrame>)
    requires pos <= |buf| && fs != [] && StackOk(fs)
    requires var f := fs[|fs| - 1]; |f.values| == f.count
    ensures var k := |fs| - 1;
            if k == 0 then FinishAll(buf, pos, fs) == Ok(Built(fs[0]), pos)
            else WantsValue(fs[k - 1]) &&
                 var after := WithTop(fs[..k], Plug(fs[k - 1], Built(fs[k])));
                 StackOk(after) && FinishAll(buf, pos, fs) == FinishAll(buf, pos, after)
  {
    var k := |fs| - 1;
    CompleteFull(buf, pos, |fs|, fs[k]);
    if k > 0 {
      var below := fs[..k];
      assert below[k - 1] == fs[k - 1];
      var after := WithTop(below, Plug(fs[k - 1], Built(fs[k])));
      assert after[..k - 1] == below[..k - 1];
    }
  }

  lemma KeyStep(buf: bytes, pos: nat, fs: seq<DecFrame>)
    requires pos <= |buf| && fs != [] && StackOk(fs)
    requires var f := fs[|fs| - 1]; f.container == Map && !Awaiting(f) && |f.values| < f.count
    ensures var key := KeyAt(buf, pos);
            if !key.Ok? then FinishAll(buf, pos, fs) == Failed(key)
            else
              var f := fs[|fs| - 1];
              var after := WithTop(fs, f.(keys := f.keys + [key.value]));
              StackOk(after) && FinishAll(buf, pos, fs) == FinishAll(buf, key.next, after)
  {
    var key, k := KeyAt(buf, pos), |fs| - 1;
    CompleteKey(buf, pos, |fs|, fs[k]);
    if key.Ok? {
      var after := WithTop(fs, fs[k].(keys := fs[k].keys + [key.value]));
      assert after[..k] == fs[..k];
    }
  }

  lemma FailStep(buf: bytes, pos: nat, fs: seq<DecFrame>)
    requires pos <= |buf| && fs != [] && StackOk(fs) && WantsValue(fs[|fs| - 1])
    requires !HeadAt(buf, pos, |fs|).Ok?
    ensures FinishAll(buf, pos, fs) == Failed(HeadAt(buf, pos, |fs|))
  {
    CompleteValue(buf, pos, |fs|, fs[|fs| - 1]);
  }

  lemma ScalarStep(buf: bytes, pos: nat, fs: seq<DecFrame>)
    requires pos <= |buf| && fs != [] && StackOk(fs) && WantsValue(fs[|fs| - 1])
    requires var head := HeadAt(buf, pos, |fs|); head.Ok? && head.value.Scalar?
    ensures var head := HeadAt(buf, pos, |fs|);
            var after := WithTop(fs, Plug(fs[|fs| - 1], head.value.value));
            StackOk(after) && FinishAll(buf, pos, fs) == FinishAll(buf, head.next, after)
  {
    var k := |fs| - 1;
    CompleteValue(buf, pos, |fs|, fs[k]);
    var after := WithTop(fs, Plug(fs[k], HeadAt(buf, pos, |fs|).value.value));
    assert after[..k] == fs[..k];
  }

  lemma OpenStep(buf: bytes, pos: nat, fs: seq<DecFrame>)
    requires pos <= |buf| && fs != [] && StackOk(fs) && WantsValue(fs[|fs| - 1])
    requires var head := HeadAt(buf, pos, |fs|); head.Ok? && head.value.Open?
    ensures var head := HeadAt(buf, pos, |fs|);
            var after := fs + [OpenFrame(head.value.container, head.value.count)];
            StackOk(after) && FinishAll(buf, pos, fs) == FinishAll(buf, head.next, after)
  {
    var k, head := |fs| - 1, HeadAt(buf, pos, |fs|);
    CompleteValue(buf, pos, |fs|, fs[k]);
    CompleteOpened(buf, pos, |fs|);
    var after := fs + [OpenFrame(head.value.container, head.value.count)];
    assert after[..|fs|] == fs;
  }
}
