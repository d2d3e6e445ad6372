/** What the codec promises: round trip, stable verdicts, prefix-free codes, smallest headers. */
module MsgpackLaws {
  import opened Bytes
  import opened MsgpackSpec

  // ----- numbers -----

  /** Reading an `n`-byte number back: itself, or its two's complement pattern. */
  lemma {:induction false} BigEndianReads(v: int, n: nat)
    requires 0 <= v + Pow256(n) && v < Pow256(n)
    ensures FromBigEndian(BigEndian(v, n)) == if v >= 0 then v else v + Pow256(n)
    decreases n
  {
    if n > 0 {
      BigEndianReads(v / 256, n - 1);
      assert BigEndian(v, n)[..n - 1] == BigEndian(v / 256, n - 1);
    }
  }

  /** The most significant byte comes first. */
  lemma {:induction false} BigEndianFront(v: int, n: nat)
    requires n > 0
    ensures BigEndian(v, n) == [ShiftedRight(v, n - 1) % 256] + BigEndian(v, n - 1)
    decreases n
  {
    if n > 1 {
      BigEndianFront(v / 256, n - 1);
    }
  }

  /** Conversion to an `m`-byte machine word keeps the low bytes. */
  lemma {:induction false} BigEndianOfWord(v: int, m: nat, n: nat)
    requires n <= m
    ensures BigEndian(v + Pow256(m), n) == BigEndian(v, n)
    decreases n
  {
    if n > 0 {
      BigEndianOfWord(v / 256, m - 1, n - 1);
    }
  }

  lemma Powers()
    ensures Pow256(1) == 0x100 && Pow256(2) == 0x1_0000
    ensures Pow256(4) == 0x1_0000_0000 && Pow256(8) == 0x1_0000_0000_0000_0000
  {
    assert Pow256(0) == 1;
    assert Pow256(3) == 0x100_0000;
    assert Pow256(5) == 0x100_0000_0000;
    assert Pow256(6) == 0x1_0000_0000_0000;
    assert Pow256(7) == 0x100_0000_0000_0000;
  }

  lemma {:induction false} FromBigEndianBound(b: bytes)
    ensures FromBigEndian(b) < Pow256(|b|)
  {
    if b != [] {
      FromBigEndianBound(b[..|b| - 1]);
    }
  }

  // ----- round trip -----

  /** The bytes `code` stand in `buf` at `pos`. */
  predicate Holds(buf: bytes, pos: nat, code: bytes) {
    pos + |code| <= |buf| && buf[pos..pos + |code|] == code
  }

  lemma HoldsParts(buf: bytes, pos: nat, a: bytes, b: bytes)
    requires Holds(buf, pos, a + b)
    ensures Holds(buf, pos, a) && Holds(buf, pos + |a|, b)
  {
    var s := buf[pos..pos + |a + b|];
    assert buf[pos..pos + |a|] == s[..|a|] == a;
    assert buf[pos + |a|..pos + |a| + |b|] == s[|a|..] == b;
  }

  /** A format byte followed by an `n`-byte number. */
  lemma PayloadReads(buf: bytes, pos: nat, format: byte, v: int, n: nat)
    requires 0 <= v + Pow256(n) && v < Pow256(n) && Holds(buf, pos, [format] + BigEndian(v, n))
    ensures pos + 1 + n <= |buf| && buf[pos] == format
    ensures Payload(buf, pos, n) == if v >= 0 then v else v + Pow256(n)
  {
    HoldsParts(buf, pos, [format], BigEndian(v, n));
    BigEndianReads(v, n);
  }

  lemma IntReads(buf: bytes, pos: nat, i: int, depth: nat)
    requires INT64_MIN <= i <= INT64_MAX && Holds(buf, pos, EncInt(i))
    ensures HeadAt(buf, pos, depth) == Ok(Scalar(Int(i)), pos + |EncInt(i)|)
  {
    if -32 <= i <= 0x7f {
      assert buf[pos] == i % 256;
    } else if i >= 0 {
      NonnegativeReads(buf, pos, i, depth);
    } else {
      NegativeReads(buf, pos, i, depth);
    }
  }

  lemma UnsignedReads(buf: bytes, pos: nat, format: byte, i: int, n: nat, depth: nat)
    requires FormatOf(format) == Numeric(n, Unsigned) && Holds(buf, pos, [format] + BigEndian(i, n))
    requires 0 <= i < Pow256(n) && i <= INT64_MAX
    ensures HeadAt(buf, pos, depth) == Ok(Scalar(Int(i)), pos + 1 + n)
  {
    PayloadReads(buf, pos, format, i, n);
  }

  lemma SignedReads(buf: bytes, pos: nat, format: byte, i: int, n: nat, depth: nat)
    requires FormatOf(format) == Numeric(n, SignedInt) && Holds(buf, pos, [format] + BigEndian(i, n))
    requires 0 < -2 * i <= Pow256(n)
    ensures HeadAt(buf, pos, depth) == Ok(Scalar(Int(i)), pos + 1 + n)
  {
    PayloadReads(buf, pos, format, i, n);
  }

  lemma NonnegativeReads(buf: bytes, pos: nat, i: int, depth: nat)
    requires 0x7f < i <= INT64_MAX && Holds(buf, pos, EncInt(i))
    ensures HeadAt(buf, pos, depth) == Ok(Scalar(Int(i)), pos + |EncInt(i)|)
  {
    Powers();
    if i <= 0xff { UnsignedReads(buf, pos, 0xcc, i, 1, depth); }
    else if i <= 0xffff { UnsignedReads(buf, pos, 0xcd, i, 2, depth); }
    else if i <= 0xffff_ffff { UnsignedReads(buf, pos, 0xce, i, 4, depth); }
    else { UnsignedReads(buf, pos, 0xcf, i, 8, depth); }
  }

  lemma NegativeReads(buf: bytes, pos: nat, i: int, depth: nat)
    requires INT64_MIN <= i < -32 && Holds(buf, pos, EncInt(i))
    ensures HeadAt(buf, pos, depth) == Ok(Scalar(Int(i)), pos + |EncInt(i)|)
  {
    Powers();
    if i >= -128 { SignedReads(buf, pos, 0xd0, i, 1, depth); }
    else if i >= -32768 { SignedReads(buf, pos, 0xd1, i, 2, depth); }
    else if i >= -0x8000_0000 { SignedReads(buf, pos, 0xd2, i, 4, depth); }
    else { SignedReads(buf, pos, 0xd3, i, 8, depth); }
  }

  lemma CountPayload(buf: bytes, pos: nat, format: byte, n: nat, w: nat)
    requires n < Pow256(w) && Holds(buf, pos, [format] + BigEndian(n, w))
    ensures pos + 1 + w <= |buf| && buf[pos] == format && Payload(buf, pos, w) == n
  {
    PayloadReads(buf, pos, format, n, w);
  }

  /** A count of `n` read back: the format byte, and the count itself when it follows in `width` bytes. */
  lemma CountReads(buf: bytes, pos: nat, n: nat, kind: CountKind)
    requires n <= COUNT_MAX && Holds(buf, pos, EncCount(n, kind))
    ensures var width := |EncCount(n, kind)| - 1;
            && pos + 1 + width <= |buf|
            && (width > 0 ==> Payload(buf, pos, width) == n)
            && FormatOf(buf[pos]) ==
               match kind
               case StrCount => if width == 0 then ShortStr(n) else LongStr(width, true)
               case ArrCount => if width == 0 then ShortContainer(Array, n) else LongContainer(Array, width)
               case MapCount => if width == 0 then ShortContainer(Map, n) else LongContainer(Map, width)
  {
    Powers();
    var code := EncCount(n, kind);
    if |code| == 1 {
      assert buf[pos] == code[0];
    } else if n <= 0xffff {
      CountPayload(buf, pos, code[0], n, 2);
    } else {
      CountPayload(buf, pos, code[0], n, 4);
    }
  }

  lemma StrReads(buf: bytes, pos: nat, s: bytes, depth: nat)
    requires |s| <= COUNT_MAX && Holds(buf, pos, EncStr(s))
    ensures KeyAt(buf, pos) == Ok(s, pos + |EncStr(s)|)
    ensures HeadAt(buf, pos, depth) == Ok(Scalar(Str(s)), pos + |EncStr(s)|)
  {
    HoldsParts(buf, pos, EncCount(|s|, StrCount), s);
    CountReads(buf, pos, |s|, StrCount);
  }

  lemma ContainerReads(buf: bytes, pos: nat, n: nat, container: Container, depth: nat)
    requires n <= COUNT_MAX && depth < DEPTH_CAP
    requires Holds(buf, pos, EncCount(n, if container == Array then ArrCount else MapCount))
    requires pos + |EncCount(n, if container == Array then ArrCount else MapCount)| + n <= |buf|
    ensures HeadAt(buf, pos, depth) ==
            Ok(Open(container, n), pos + |EncCount(n, if container == Array then ArrCount else MapCount)|)
  {
    CountReads(buf, pos, n, if container == Array then ArrCount else MapCount);
  }

  lemma FloatReads(buf: bytes, pos: nat, bits: nat, depth: nat)
    requires bits < 0x1_0000_0000_0000_0000 && Holds(buf, pos, [0xcb] + BigEndian(bits, 8))
    ensures HeadAt(buf, pos, depth) == Ok(Scalar(Float(Pattern(bits))), pos + 9)
  {
    Powers();
    PayloadReads(buf, pos, 0xcb, bits, 8);
  }

  lemma ScalarReads(buf: bytes, pos: nat, o: Obj, depth: nat)
    requires Encodable(o) && !o.Arr? && !o.Dict? && Holds(buf, pos, EncNode(o))
    ensures HeadAt(buf, pos, depth) == Ok(Scalar(Wire(o)), pos + |EncNode(o)|)
  {
    match o
    case Int(i) => IntReads(buf, pos, i, depth);
    case Str(s) => StrReads(buf, pos, s, depth);
    case Float(f) => FloatReads(buf, pos, f.bits, depth);
    case Nil => assert buf[pos] == 0xc0;
    case Session => assert buf[pos] == 0xc0;
    case Bool(b) => assert buf[pos] == EncNode(o)[0];
    case Arr(_) =>
    case Dict(_) =>
  }

  lemma {:induction false} ItemsStep(buf: bytes, pos: nat, depth: nat, count: nat, v: Obj, next: nat)
    requires pos <= |buf| && next <= |buf| && count > 0 && DecValue(buf, pos, depth) == Ok(v, next)
    ensures DecItems(buf, pos, depth, count) == AddItem(v, DecItems(buf, next, depth, count - 1))
  {
  }

  lemma {:induction false} PairsStep(buf: bytes, pos: nat, depth: nat, count: nat, key: bytes, mid: nat, v: Obj,
      next: nat)
    requires pos <= |buf| && mid <= |buf| && next <= |buf| && count > 0
    requires KeyAt(buf, pos) == Ok(key, mid) && DecValue(buf, mid, depth) == Ok(v, next)
    ensures DecPairs(buf, pos, depth, count) == AddPair(Pair(key, v), DecPairs(buf, next, depth, count - 1))
  {
    assert DecPairs(buf, pos, depth, count) == DecKeyed(buf, mid, depth, key, count);
  }

  lemma {:induction false} ArrayReads(buf: bytes, pos: nat, start: nat, items: seq<Obj>, depth: nat)
    requires EncodableItems(items) && depth + 1 + NestingItems(items) <= DEPTH_CAP && pos <= |buf|
    requires HeadAt(buf, pos, depth) == Ok(Open(Array, |items|), start) && Holds(buf, start, EncItems(items))
    ensures DecValue(buf, pos, depth) == Ok(Arr(WireItems(items)), start + |EncItems(items)|)
    decreases items, 2
  {
    ItemsRead(buf, start, items, depth + 1);
  }

  lemma {:induction false} MapReads(buf: bytes, pos: nat, start: nat, pairs: seq<Pair>, depth: nat)
    requires EncodablePairs(pairs) && depth + 1 + NestingPairs(pairs) <= DEPTH_CAP && pos <= |buf|
    requires HeadAt(buf, pos, depth) == Ok(Open(Map, |pairs|), start) && Holds(buf, start, EncPairs(pairs))
    ensures DecValue(buf, pos, depth) == Ok(Dict(WirePairs(pairs)), start + |EncPairs(pairs)|)
    decreases pairs, 2
  {
    PairsRead(buf, start, pairs, depth + 1);
  }

  lemma ArrayHead(buf: bytes, pos: nat, items: seq<Obj>, depth: nat) returns (start: nat)
    requires |items| <= COUNT_MAX && EncodableItems(items) && depth < DEPTH_CAP
    requires Holds(buf, pos, EncCount(|items|, ArrCount) + EncItems(items))
    ensures start == pos + |EncCount(|items|, ArrCount)| && Holds(buf, start, EncItems(items))
    ensures HeadAt(buf, pos, depth) == Ok(Open(Array, |items|), start)
  {
    start := pos + |EncCount(|items|, ArrCount)|;
    HoldsParts(buf, pos, EncCount(|items|, ArrCount), EncItems(items));
    ContainerReads(buf, pos, |items|, Array, depth);
  }

  lemma MapHead(buf: bytes, pos: nat, pairs: seq<Pair>, depth: nat) returns (start: nat)
    requires |pairs| <= COUNT_MAX && EncodablePairs(pairs) && depth < DEPTH_CAP
    requires Holds(buf, pos, EncCount(|pairs|, MapCount) + EncPairs(pairs))
    ensures start == pos + |EncCount(|pairs|, MapCount)| && Holds(buf, start, EncPairs(pairs))
    ensures HeadAt(buf, pos, depth) == Ok(Open(Map, |pairs|), start)
  {
    start := pos + |EncCount(|pairs|, MapCount)|;
    HoldsParts(buf, pos, EncCount(|pairs|, MapCount), EncPairs(pairs));
    ContainerReads(buf, pos, |pairs|, Map, depth);
  }

  lemma {:induction false} ValueReads(buf: bytes, pos: nat, o: Obj, depth: nat)
    requires Encodable(o) && depth + Nesting(o) <= DEPTH_CAP && Holds(buf, pos, Enc(o))
    ensures DecValue(buf, pos, depth) == Ok(Wire(o), pos + |Enc(o)|)
    decreases o, 2
  {
    match o
    case Arr(items) =>
      var start := ArrayHead(buf, pos, items, depth);
      ArrayReads(buf, pos, start, items, depth);
    case Dict(pairs) =>
      var start := MapHead(buf, pos, pairs, depth);
      MapReads(buf, pos, start, pairs, depth);
    case _ => ScalarReads(buf, pos, o, depth);
  }

  lemma {:induction false} ItemsRead(buf: bytes, pos: nat, items: seq<Obj>, depth: nat)
    requires EncodableItems(items)
    requires depth + NestingItems(items) <= DEPTH_CAP && Holds(buf, pos, EncItems(items))
    ensures DecItems(buf, pos, depth, |items|) == Ok(WireItems(items), pos + |EncItems(items)|)
    decreases items, 1
  {
    if items != [] {
      var next := FirstItemReads(buf, pos, items, depth);
      ItemsRead(buf, next, items[1..], depth);
    }
  }

  lemma {:induction false} FirstItemReads(buf: bytes, pos: nat, items: seq<Obj>, depth: nat) returns (next: nat)
    requires items != [] && EncodableItems(items)
    requires depth + Nesting(items[0]) <= DEPTH_CAP && Holds(buf, pos, EncItems(items))
    ensures Holds(buf, next, EncItems(items[1..])) && next + |EncItems(items[1..])| == pos + |EncItems(items)|
    ensures DecItems(buf, pos, depth, |items|) == AddItem(Wire(items[0]), DecItems(buf, next, depth, |items| - 1))
    decreases items, 0
  {
    var code, rest := Enc(items[0]), EncItems(items[1..]);
    HoldsParts(buf, pos, code, rest);
    next := pos + |code|;
    ValueReads(buf, pos, items[0], depth);
    ItemsStep(buf, pos, depth, |items|, Wire(items[0]), next);
  }

  lemma {:induction false} PairsRead(buf: bytes, pos: nat, pairs: seq<Pair>, depth: nat)
    requires EncodablePairs(pairs)
    requires depth + NestingPairs(pairs) <= DEPTH_CAP && Holds(buf, pos, EncPairs(pairs))
    ensures DecPairs(buf, pos, depth, |pairs|) == Ok(WirePairs(pairs), pos + |EncPairs(pairs)|)
    decreases pairs, 1
  {
    if pairs != [] {
      var next := FirstPairReads(buf, pos, pairs, depth);
      PairsRead(buf, next, pairs[1..], depth);
    }
  }

  lemma {:induction false} FirstPairReads(buf: bytes, pos: nat, pairs: seq<Pair>, depth: nat) returns (next: nat)
    requires pairs != [] && EncodablePairs(pairs)
    requires depth + Nesting(pairs[0].value) <= DEPTH_CAP && Holds(buf, pos, EncPairs(pairs))
    ensures Holds(buf, next, EncPairs(pairs[1..])) && next + |EncPairs(pairs[1..])| == pos + |EncPairs(pairs)|
    ensures DecPairs(buf, pos, depth, |pairs|) ==
            AddPair(Pair(pairs[0].key, Wire(pairs[0].value)), DecPairs(buf, next, depth, |pairs| - 1))
    decreases pairs, 0
  {
    var mid;
    mid, next := PairsSplit(buf, pos, pairs);
    assert KeyAt(buf, pos) == Ok(pairs[0].key, mid) by {
      StrReads(buf, pos, pairs[0].key, 0);
    }
    assert DecValue(buf, mid, depth) == Ok(Wire(pairs[0].value), next) by {
      ValueReads(buf, mid, pairs[0].value, depth);
    }
    PairsStep(buf, pos, depth, |pairs|, pairs[0].key, mid, Wire(pairs[0].value), next);
  }

  lemma {:induction false} PairsSplit(buf: bytes, pos: nat, pairs: seq<Pair>) returns (mid: nat, next: nat)
    requires pairs != [] && EncodablePairs(pairs) && Holds(buf, pos, EncPairs(pairs))
    ensures Holds(buf, pos, EncStr(pairs[0].key)) && mid == pos + |EncStr(pairs[0].key)|
    ensures Holds(buf, mid, Enc(pairs[0].value)) && next == mid + |Enc(pairs[0].value)|
    ensures Holds(buf, next, EncPairs(pairs[1..])) && next + |EncPairs(pairs[1..])| == pos + |EncPairs(pairs)|
  {
    var k, v, rest := EncStr(pairs[0].key), Enc(pairs[0].value), EncPairs(pairs[1..]);
    assert EncPairs(pairs) == k + v + rest;
    HoldsParts(buf, pos, k + v, rest);
    HoldsParts(buf, pos, k, v);
    mid, next := pos + |k|, pos + |k| + |v|;
  }

  /** Encoding, then anything at all: decoding gives the object back and consumes exactly its code. */
  lemma RoundTrip(o: Obj, after: bytes)
    requires Encodable(o) && Nesting(o) <= DEPTH_CAP
    ensures Decode(Enc(o) + after) == Ok(Wire(o), |Enc(o)|)
  {
    assert (Enc(o) + after)[0..|Enc(o)|] == Enc(o);
    ValueReads(Enc(o) + after, 0, o, 0);
  }

  // ----- too deep -----

  /** With the cap used up, a container that would fit the buffer is refused. */
  lemma ContainerAtCap(buf: bytes, pos: nat, n: nat, container: Container)
    requires n <= COUNT_MAX
    requires Holds(buf, pos, EncCount(n, if container == Array then ArrCount else MapCount))
    requires pos + |EncCount(n, if container == Array then ArrCount else MapCount)| + n <= |buf|
    ensures DecValue(buf, pos, DEPTH_CAP) == Malformed(TooDeep)
  {
    CountReads(buf, pos, n, if container == Array then ArrCount else MapCount);
    assert HeadAt(buf, pos, DEPTH_CAP) == Malformed(TooDeep);
  }

  /** An object nested past the cap is rejected as such, wherever the deep part lies. */
  lemma {:induction false} ValueTooDeep(buf: bytes, pos: nat, o: Obj, depth: nat)
    requires Encodable(o) && depth <= DEPTH_CAP < depth + Nesting(o) && Holds(buf, pos, Enc(o))
    ensures DecValue(buf, pos, depth) == Malformed(TooDeep)
    decreases o, 3
  {
    match o
    case Arr(items) => ArrayTooDeep(buf, pos, items, depth);
    case Dict(pairs) => MapTooDeep(buf, pos, pairs, depth);
    case _ =>
  }

  lemma {:induction false} ArrayTooDeep(buf: bytes, pos: nat, items: seq<Obj>, depth: nat)
    requires |items| <= COUNT_MAX && EncodableItems(items) && depth <= DEPTH_CAP < depth + 1 + NestingItems(items)
    requires Holds(buf, pos, EncCount(|items|, ArrCount) + EncItems(items))
    ensures DecValue(buf, pos, depth) == Malformed(TooDeep)
    decreases items, 2
  {
    if depth == DEPTH_CAP {
      HoldsParts(buf, pos, EncCount(|items|, ArrCount), EncItems(items));
      ContainerAtCap(buf, pos, |items|, Array);
    } else {
      var start := ArrayHead(buf, pos, items, depth);
      assert DecItems(buf, start, depth + 1, |items|) == Malformed(TooDeep) by {
        ItemsTooDeep(buf, start, items, depth + 1);
      }
    }
  }

  lemma {:induction false} MapTooDeep(buf: bytes, pos: nat, pairs: seq<Pair>, depth: nat)
    requires |pairs| <= COUNT_MAX && EncodablePairs(pairs) && depth <= DEPTH_CAP < depth + 1 + NestingPairs(pairs)
    requires Holds(buf, pos, EncCount(|pairs|, MapCount) + EncPairs(pairs))
    ensures DecValue(buf, pos, depth) == Malformed(TooDeep)
    decreases pairs, 2
  {
    if depth == DEPTH_CAP {
      HoldsParts(buf, pos, EncCount(|pairs|, MapCount), EncPairs(pairs));
      ContainerAtCap(buf, pos, |pairs|, Map);
    } else {
      var start := MapHead(buf, pos, pairs, depth);
      assert DecPairs(buf, start, depth + 1, |pairs|) == Malformed(TooDeep) by {
        PairsTooDeep(buf, start, pairs, depth + 1);
      }
    }
  }

  lemma {:induction false} ItemsTooDeep(buf: bytes, pos: nat, items: seq<Obj>, depth: nat)
    requires EncodableItems(items)
    requires depth <= DEPTH_CAP < depth + NestingItems(items) && Holds(buf, pos, EncItems(items))
    ensures DecItems(buf, pos, depth, |items|) == Malformed(TooDeep)
    decreases items, 1
  {
    if depth + Nesting(items[0]) > DEPTH_CAP {
      assert DecValue(buf, pos, depth) == Malformed(TooDeep) by {
        HoldsParts(buf, pos, Enc(items[0]), EncItems(items[1..]));
        ValueTooDeep(buf, pos, items[0], depth);
      }
    } else {
      var next := FirstItemReads(buf, pos, items, depth);
      ItemsTooDeep(buf, next, items[1..], depth);
    }
  }

  lemma {:induction false} PairsTooDeep(buf: bytes, pos: nat, pairs: seq<Pair>, depth: nat)
    requires EncodablePairs(pairs)
    requires depth <= DEPTH_CAP < depth + NestingPairs(pairs) && Holds(buf, pos, EncPairs(pairs))
    ensures DecPairs(buf, pos, depth, |pairs|) == Malformed(TooDeep)
    decreases pairs, 1
  {
    if depth + Nesting(pairs[0].value) > DEPTH_CAP {
      var mid, next := PairsSplit(buf, pos, pairs);
      assert KeyAt(buf, pos) == Ok(pairs[0].key, mid) by {
        StrReads(buf, pos, pairs[0].key, 0);
      }
      assert DecValue(buf, mid, depth) == Malformed(TooDeep) by {
        ValueTooDeep(buf, mid, pairs[0].value, depth);
      }
      assert DecPairs(buf, pos, depth, |pairs|) == DecKeyed(buf, mid, depth, pairs[0].key, |pairs|);
    } else {
      var next := FirstPairReads(buf, pos, pairs, depth);
      PairsTooDeep(buf, next, pairs[1..], depth);
    }
  }

  lemma TooDeepIsRejected(o: Obj, after: bytes)
    requires Encodable(o) && Nesting(o) > DEPTH_CAP
    ensures Decode(Enc(o) + after) == Malformed(TooDeep)
  {
    assert (Enc(o) + after)[0..|Enc(o)|] == Enc(o);
    ValueTooDeep(Enc(o) + after, 0, o, 0);
  }

  // ----- verdicts are stable when bytes are appended -----

  lemma PayloadOfLonger(buf: bytes, more: bytes, pos: nat, w: nat)
    requires pos + 1 + w <= |buf|
    ensures Payload(buf + more, pos, w) == Payload(buf, pos, w)
  {
    assert (buf + more)[pos + 1..pos + 1 + w] == buf[pos + 1..pos + 1 + w];
  }

  lemma StrOfLonger(buf: bytes, more: bytes, start: nat, len: nat)
    requires start + len <= |buf|
    ensures StrAt(buf + more, start, len) == StrAt(buf, start, len)
  {
    assert (buf + more)[start..start + len] == buf[start..start + len];
  }

  lemma HeadStable(buf: bytes, more: bytes, pos: nat, depth: nat)
    requires pos <= |buf| && !HeadAt(buf, pos, depth).Incomplete?
    ensures HeadAt(buf + more, pos, depth) == HeadAt(buf, pos, depth)
  {
    assert (buf + more)[pos] == buf[pos];
    match FormatOf(buf[pos]) {
      case Numeric(w, _) => PayloadOfLonger(buf, more, pos, w);
      case ShortStr(len) => StrOfLonger(buf, more, pos + 1, len);
      case LongStr(w, _) =>
        PayloadOfLonger(buf, more, pos, w);
        StrOfLonger(buf, more, pos + 1 + w, Payload(buf, pos, w));
      case LongContainer(_, w) => PayloadOfLonger(buf, more, pos, w);
      case _ =>
    }
  }

  lemma KeyStable(buf: bytes, more: bytes, pos: nat)
    requires pos <= |buf| && !KeyAt(buf, pos).Incomplete?
    ensures KeyAt(buf + more, pos) == KeyAt(buf, pos)
  {
    assert (buf + more)[pos] == buf[pos];
    match FormatOf(buf[pos]) {
      case ShortStr(len) => StrOfLonger(buf, more, pos + 1, len);
      case LongStr(w, true) =>
        PayloadOfLonger(buf, more, pos, w);
        StrOfLonger(buf, more, pos + 1 + w, Payload(buf, pos, w));
      case _ =>
    }
  }

  lemma {:induction false} ValueStable(buf: bytes, more: bytes, pos: nat, depth: nat)
    requires pos <= |buf| && !DecValue(buf, pos, depth).Incomplete?
    ensures DecValue(buf + more, pos, depth) == DecValue(buf, pos, depth)
    decreases |buf| - pos, 0, 0
  {
    HeadStable(buf, more, pos, depth);
    match HeadAt(buf, pos, depth) {
      case Ok(Open(Array, count), next) => ItemsStable(buf, more, next, depth + 1, count);
      case Ok(Open(Map, count), next) => PairsStable(buf, more, next, depth + 1, count);
      case _ =>
    }
  }

  lemma {:induction false} ItemsStable(buf: bytes, more: bytes, pos: nat, depth: nat, count: nat)
    requires pos <= |buf| && !DecItems(buf, pos, depth, count).Incomplete?
    ensures DecItems(buf + more, pos, depth, count) == DecItems(buf, pos, depth, count)
    decreases |buf| - pos, 1, count
  {
    if count > 0 {
      ValueStable(buf, more, pos, depth);
      if DecValue(buf, pos, depth).Ok? {
        ItemsStable(buf, more, DecValue(buf, pos, depth).next, depth, count - 1);
      }
    }
  }

  lemma {:induction false} PairsStable(buf: bytes, more: bytes, pos: nat, depth: nat, count: nat)
    requires pos <= |buf| && !DecPairs(buf, pos, depth, count).Incomplete?
    ensures DecPairs(buf + more, pos, depth, count) == DecPairs(buf, pos, depth, count)
    decreases |buf| - pos, 1, count
  {
    if count > 0 {
      KeyStable(buf, more, pos);
      if KeyAt(buf, pos).Ok? {
        var next := KeyAt(buf, pos).next;
        ValueStable(buf, more, next, depth);
        if DecValue(buf, next, depth).Ok? {
          PairsStable(buf, more, DecValue(buf, next, depth).next, depth, count - 1);
        }
      }
    }
  }

  /** A verdict other than "incomplete" is final: no later byte can change it. */
  lemma VerdictStable(buf: bytes, more: bytes)
    requires !Decode(buf).Incomplete?
    ensures Decode(buf + more) == Decode(buf)
  {
    ValueStable(buf, more, 0, 0);
  }

  // ----- what lies beyond the decoded value is irrelevant -----

  lemma PayloadOfPrefix(buf: bytes, m: nat, pos: nat, w: nat)
    requires pos + 1 + w <= m <= |buf|
    ensures Payload(buf[..m], pos, w) == Payload(buf, pos, w)
  {
    assert buf[..m][pos + 1..pos + 1 + w] == buf[pos + 1..pos + 1 + w];
  }

  lemma StrOfPrefix(buf: bytes, m: nat, start: nat, len: nat)
    requires start + len <= m <= |buf|
    ensures StrAt(buf[..m], start, len) == StrAt(buf, start, len)
  {
    assert buf[..m][start..start + len] == buf[start..start + len];
  }

  lemma HeadPrefix(buf: bytes, m: nat, pos: nat, depth: nat)
    requires pos <= m <= |buf|
    requires var r := HeadAt(buf, pos, depth);
             r.Ok? && r.next <= m && (r.value.Open? ==> r.value.count <= m - r.next)
    ensures HeadAt(buf[..m], pos, depth) == HeadAt(buf, pos, depth)
  {
    assert buf[..m][pos] == buf[pos];
    match FormatOf(buf[pos]) {
      case Numeric(w, _) => PayloadOfPrefix(buf, m, pos, w);
      case ShortStr(len) => StrOfPrefix(buf, m, pos + 1, len);
      case LongStr(w, _) =>
        PayloadOfPrefix(buf, m, pos, w);
        StrOfPrefix(buf, m, pos + 1 + w, Payload(buf, pos, w));
      case LongContainer(_, w) => PayloadOfPrefix(buf, m, pos, w);
      case _ =>
    }
  }

  lemma KeyPrefix(buf: bytes, m: nat, pos: nat)
    requires pos <= m <= |buf| && KeyAt(buf, pos).Ok? && KeyAt(buf, pos).next <= m
    ensures KeyAt(buf[..m], pos) == KeyAt(buf, pos)
  {
    assert buf[..m][pos] == buf[pos];
    match FormatOf(buf[pos]) {
      case ShortStr(len) => StrOfPrefix(buf, m, pos + 1, len);
      case LongStr(w, true) =>
        PayloadOfPrefix(buf, m, pos, w);
        StrOfPrefix(buf, m, pos + 1 + w, Payload(buf, pos, w));
    }
  }

  lemma {:induction false} ValuePrefix(buf: bytes, m: nat, pos: nat, depth: nat)
    requires pos <= m <= |buf| && DecValue(buf, pos, depth).Ok? && DecValue(buf, pos, depth).next <= m
    ensures DecValue(buf[..m], pos, depth) == DecValue(buf, pos, depth)
    decreases |buf| - pos, 0, 0
  {
    HeadPrefix(buf, m, pos, depth);
    match HeadAt(buf, pos, depth) {
      case Ok(Open(Array, count), next) => ItemsPrefix(buf, m, next, depth + 1, count);
      case Ok(Open(Map, count), next) => PairsPrefix(buf, m, next, depth + 1, count);
      case _ =>
    }
  }

  lemma {:induction false} ItemsPrefix(buf: bytes, m: nat, pos: nat, depth: nat, count: nat)
    requires pos <= m <= |buf|
    requires DecItems(buf, pos, depth, count).Ok? && DecItems(buf, pos, depth, count).next <= m
    ensures DecItems(buf[..m], pos, depth, count) == DecItems(buf, pos, depth, count)
    decreases |buf| - pos, 1, count
  {
    if count > 0 {
      var next := DecValue(buf, pos, depth).next;
      assert DecItems(buf, next, depth, count - 1).Ok?;
      ValuePrefix(buf, m, pos, depth);
      ItemsPrefix(buf, m, next, depth, count - 1);
    }
  }

  lemma {:induction false} PairsPrefix(buf: bytes, m: nat, pos: nat, depth: nat, count: nat)
    requires pos <= m <= |buf|
    requires DecPairs(buf, pos, depth, count).Ok? && DecPairs(buf, pos, depth, count).next <= m
    ensures DecPairs(buf[..m], pos, depth, count) == DecPairs(buf, pos, depth, count)
    decreases |buf| - pos, 1, count
  {
    if count > 0 {
      var value := KeyAt(buf, pos).next;
      var next := DecValue(buf, value, depth).next;
      assert DecPairs(buf, next, depth, count - 1).Ok?;
      KeyPrefix(buf, m, pos);
      ValuePrefix(buf, m, value, depth);
      PairsPrefix(buf, m, next, depth, count - 1);
    }
  }

  /** A decoded value depends on its own bytes only, and none of its proper prefixes is a verdict. */
  lemma CodeIsSelfContained(buf: bytes, m: nat)
    requires Decode(buf).Ok? && m <= |buf|
    ensures m >= Decode(buf).next ==> Decode(buf[..m]) == Decode(buf)
    ensures m < Decode(buf).next ==> Decode(buf[..m]).Incomplete?
  {
    if m >= Decode(buf).next {
      ValuePrefix(buf, m, 0, 0);
    } else if !Decode(buf[..m]).Incomplete? {
      assert buf[..m] + buf[m..] == buf;
      VerdictStable(buf[..m], buf[m..]);
    }
  }

  predicate IsCode(c: bytes) {
    Decode(c).Ok? && Decode(c).next == |c|
  }

  /** No accepted code is a proper prefix of another. */
  lemma PrefixFree(a: bytes, b: bytes)
    requires IsCode(a) && IsCode(b) && a <= b
    ensures a == b
  {
    assert b == a + b[|a|..];
    VerdictStable(a, b[|a|..]);
  }

  /** The encoder is injective up to session handles, even inside a longer stream. */
  lemma EncodingIsUnambiguous(o: Obj, p: Obj, after: bytes, after': bytes)
    requires Encodable(o) && Nesting(o) <= DEPTH_CAP
    requires Encodable(p) && Nesting(p) <= DEPTH_CAP
    requires Enc(o) + after == Enc(p) + after'
    ensures Wire(o) == Wire(p) && after == after'
  {
    RoundTrip(o, after);
    RoundTrip(p, after');
    assert after == (Enc(o) + after)[|Enc(o)|..];
    assert after' == (Enc(p) + after')[|Enc(p)|..];
  }

  // ----- smallest headers -----

  lemma SignedRange(u: nat, w: nat)
    requires w == 1 || w == 2 || w == 4 || w == 8
    requires u < Pow256(w)
    ensures |EncInt(Signed(u, w))| <= w + 1 && INT64_MIN <= Signed(u, w) <= INT64_MAX
  {
    Powers();
    if w == 1 { assert -128 <= Signed(u, 1) < 128; }
    else if w == 2 { assert -32768 <= Signed(u, 2) < 32768; }
    else if w == 4 { assert -0x8000_0000 <= Signed(u, 4) < 0x8000_0000; }
  }

  lemma UnsignedRange(u: nat, w: nat)
    requires w == 1 || w == 2 || w == 4 || w == 8
    requires u < Pow256(w) && u <= INT64_MAX
    ensures |EncInt(u)| <= w + 1
  {
    Powers();
  }

  /** No accepted code of an integer is shorter than the encoder's. */
  lemma IntCodeIsShortest(buf: bytes, pos: nat, depth: nat, i: int)
    requires pos <= |buf| && HeadAt(buf, pos, depth).Ok? && HeadAt(buf, pos, depth).value == Scalar(Int(i))
    ensures INT64_MIN <= i <= INT64_MAX
    ensures |EncInt(i)| <= HeadAt(buf, pos, depth).next - pos
  {
    match FormatOf(buf[pos]) {
      case Numeric(w, number) =>
        FromBigEndianBound(buf[pos + 1..pos + 1 + w]);
        var u := Payload(buf, pos, w);
        if number == SignedInt {
          SignedRange(u, w);
        } else {
          UnsignedRange(u, w);
        }
      case _ =>
    }
  }

  lemma CountCodeBound(count: nat, w: nat)
    requires (w == 2 || w == 4) && count < Pow256(w)
    ensures |EncCount(count, ArrCount)| <= w + 1 && |EncCount(count, MapCount)| <= w + 1
  {
    Powers();
  }

  /** No accepted header of a container is shorter than the encoder's. */
  lemma ContainerHeaderIsShortest(buf: bytes, pos: nat, depth: nat)
    requires pos <= |buf| && HeadAt(buf, pos, depth).Ok? && HeadAt(buf, pos, depth).value.Open?
    ensures var head := HeadAt(buf, pos, depth);
            var kind := if head.value.container == Array then ArrCount else MapCount;
            |EncCount(head.value.count, kind)| <= head.next - pos
  {
    match FormatOf(buf[pos]) {
      case LongContainer(_, w) =>
        FromBigEndianBound(buf[pos + 1..pos + 1 + w]);
        CountCodeBound(Payload(buf, pos, w), w);
      case _ =>
    }
  }

  function Str8(s: bytes): bytes
    requires |s| <= 255
  {
    [0xd9, |s|] + s
  }

  lemma Str8Reads(s: bytes)
    requires |s| <= 255
    ensures HeadAt(Str8(s), 0, 0) == Ok(Scalar(Str(s)), 2 + |s|)
  {
    var code := Str8(s);
    assert code[1..2] == [|s|] && code[2..2 + |s|] == s;
    assert FromBigEndian([]) == 0 && [|s|][..0] == [];
  }

  lemma StrCodeBound(buf: bytes, pos: nat, s: bytes)
    requires |s| <= COUNT_MAX && !(32 <= |s| <= 255)
    requires pos <= |buf| && HeadAt(buf, pos, 0).Ok? && HeadAt(buf, pos, 0).value == Scalar(Str(s))
    ensures |EncStr(s)| <= HeadAt(buf, pos, 0).next - pos
  {
    Powers();
    match FormatOf(buf[pos]) {
      case LongStr(w, _) => FromBigEndianBound(buf[pos + 1..pos + 1 + w]);
      case _ =>
    }
  }

  /** Some accepted code of `s` is shorter than the encoder's. */
  ghost predicate HasShorterCode(s: bytes) {
    exists buf: bytes, pos: nat ::
      pos <= |buf| && HeadAt(buf, pos, 0).Ok? && HeadAt(buf, pos, 0).value == Scalar(Str(s)) &&
      HeadAt(buf, pos, 0).next - pos < |EncStr(s)|
  }

  /** For strings the claim fails exactly from 32 to 255 bytes: the one-byte length form is never emitted. */
  lemma StrCodeIsShortest(s: bytes)
    requires |s| <= COUNT_MAX
    ensures HasShorterCode(s) <==> 32 <= |s| <= 255
  {
    if 32 <= |s| <= 255 {
      Str8Reads(s);
      assert |EncStr(s)| == 3 + |s|;
    } else if HasShorterCode(s) {
      var buf: bytes, pos: nat :|
        pos <= |buf| && HeadAt(buf, pos, 0).Ok? && HeadAt(buf, pos, 0).value == Scalar(Str(s)) &&
        HeadAt(buf, pos, 0).next - pos < |EncStr(s)|;
      StrCodeBound(buf, pos, s);
      assert false;
    }
  }
}
