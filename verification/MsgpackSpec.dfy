/**
 The MessagePack codec of src/mua/msgpack.c as recursive functions: what is encoded, and what a
 byte buffer decodes to at an offset.  The format bytes are those of the MessagePack specification.
 */
module MsgpackSpec {
  import opened Bytes

  /** kMarshalDepthCap: how many containers may be open at once. */
  const DEPTH_CAP := 32

  const INT64_MIN := -0x8000_0000_0000_0000
  const INT64_MAX := 0x7fff_ffff_ffff_ffff
  const COUNT_MAX := 0xffff_ffff

  /** A double: its 64-bit pattern, or the widened single or rounded integer that it was decoded from. */
  datatype Double = Pattern(bits: nat) | Widened(single: nat) | Rounded(u: nat)

  datatype Obj =
    | Nil
    | Bool(b: bool)
    | Int(i: int)
    | Float(f: Double)
    | Str(s: bytes)
    | Arr(items: seq<Obj>)
    | Dict(pairs: seq<Pair>)
    | Session

  datatype Pair = Pair(key: bytes, value: Obj)

  // ----- big-endian numbers -----

  function Pow256(n: nat): (p: nat)
    ensures p > 0
  {
    if n == 0 then 1 else 256 * Pow256(n - 1)
  }

  /** The low `n` bytes of `v` in two's complement, most significant first. */
  function BigEndian(v: int, n: nat): (b: bytes)
    ensures |b| == n
    decreases n, v
  {
    if n == 0 then [] else BigEndian(v / 256, n - 1) + [v % 256]
  }

  /** `v` shifted right by `n` whole bytes. */
  function ShiftedRight(v: int, n: nat): int
    decreases n, v
  {
    if n == 0 then v else ShiftedRight(v / 256, n - 1)
  }

  function FromBigEndian(b: bytes): nat {
    if b == [] then 0 else 256 * FromBigEndian(b[..|b| - 1]) + b[|b| - 1]
  }

  /** The signed value of an `n`-byte two's complement pattern. */
  function Signed(u: nat, n: nat): int {
    if u < Pow256(n) / 2 then u else u - Pow256(n)
  }

  // ----- encoding -----

  function EncInt(i: int): bytes {
    if -32 <= i <= 0x7f then [i % 256]
    else if i >= 0 then
      if i <= 0xff then [0xcc] + BigEndian(i, 1)
      else if i <= 0xffff then [0xcd] + BigEndian(i, 2)
      else if i <= 0xffff_ffff then [0xce] + BigEndian(i, 4)
      else [0xcf] + BigEndian(i, 8)
    else if i >= -128 then [0xd0] + BigEndian(i, 1)
    else if i >= -32768 then [0xd1] + BigEndian(i, 2)
    else if i >= -0x8000_0000 then [0xd2] + BigEndian(i, 4)
    else [0xd3] + BigEndian(i, 8)
  }

  datatype CountKind = StrCount | ArrCount | MapCount

  function EncCount(n: nat, kind: CountKind): bytes {
    match kind
    case StrCount =>
      if n <= 31 then [0xa0 + n] else if n <= 0xffff then [0xda] + BigEndian(n, 2) else [0xdb] + BigEndian(n, 4)
    case ArrCount =>
      if n <= 15 then [0x90 + n] else if n <= 0xffff then [0xdc] + BigEndian(n, 2) else [0xdd] + BigEndian(n, 4)
    case MapCount =>
      if n <= 15 then [0x80 + n] else if n <= 0xffff then [0xde] + BigEndian(n, 2) else [0xdf] + BigEndian(n, 4)
  }

  function EncStr(s: bytes): bytes {
    EncCount(|s|, StrCount) + s
  }

  /** A scalar whole, or a container's header. */
  function EncNode(o: Obj): (b: bytes)
    requires Encodable(o)
    ensures |b| >= 1
  {
    match o
    case Nil => [0xc0]
    case Session => [0xc0]
    case Bool(b) => [if b then 0xc3 else 0xc2]
    case Int(i) => EncInt(i)
    case Float(f) => [0xcb] + BigEndian(f.bits, 8)
    case Str(s) => EncStr(s)
    case Arr(items) => EncCount(|items|, ArrCount)
    case Dict(pairs) => EncCount(|pairs|, MapCount)
  }

  function Enc(o: Obj): (b: bytes)
    requires Encodable(o)
    ensures |b| >= 1
    decreases o, 1
  {
    match o
    case Arr(items) => EncNode(o) + EncItems(items)
    case Dict(pairs) => EncNode(o) + EncPairs(pairs)
    case _ => EncNode(o)
  }

  function EncItems(items: seq<Obj>): (b: bytes)
    requires EncodableItems(items)
    ensures |b| >= |items|
    decreases items, 0
  {
    if items == [] then [] else Enc(items[0]) + EncItems(items[1..])
  }

  function EncPairs(pairs: seq<Pair>): (b: bytes)
    requires EncodablePairs(pairs)
    ensures |b| >= |pairs|
    decreases pairs, 0
  {
    if pairs == [] then []
    else
      EncStr(pairs[0].key) + Enc(pairs[0].value) + EncPairs(pairs[1..])
  }

  /** An object of the source: 64-bit integers, doubles, sizes below 2^32 (asserted by the encoder). */
  predicate Encodable(o: Obj)
    decreases o, 1
  {
    match o
    case Int(i) => INT64_MIN <= i <= INT64_MAX
    case Float(f) => f.Pattern? && f.bits < 0x1_0000_0000_0000_0000
    case Str(s) => |s| <= COUNT_MAX
    case Arr(items) => |items| <= COUNT_MAX && EncodableItems(items)
    case Dict(pairs) => |pairs| <= COUNT_MAX && EncodablePairs(pairs)
    case _ => true
  }

  predicate EncodableItems(items: seq<Obj>)
    decreases items, 0
  {
    items != [] ==> Encodable(items[0]) && EncodableItems(items[1..])
  }

  predicate EncodablePairs(pairs: seq<Pair>)
    decreases pairs, 0
  {
    pairs != [] ==> |pairs[0].key| <= COUNT_MAX && Encodable(pairs[0].value) && EncodablePairs(pairs[1..])
  }

  /** How many containers deep the object is. */
  function Nesting(o: Obj): nat
    decreases o, 1
  {
    match o
    case Arr(items) => 1 + NestingItems(items)
    case Dict(pairs) => 1 + NestingPairs(pairs)
    case _ => 0
  }

  function Max(a: nat, b: nat): nat { if a > b then a else b }

  function NestingItems(items: seq<Obj>): nat
    decreases items, 0
  {
    if items == [] then 0 else Max(Nesting(items[0]), NestingItems(items[1..]))
  }

  function NestingPairs(pairs: seq<Pair>): nat
    decreases pairs, 0
  {
    if pairs == [] then 0 else Max(Nesting(pairs[0].value), NestingPairs(pairs[1..]))
  }

  /** What survives the wire: a session handle has no wire form and arrives as nil. */
  function Wire(o: Obj): Obj
    decreases o, 1
  {
    match o
    case Session => Nil
    case Arr(items) => Arr(WireItems(items))
    case Dict(pairs) => Dict(WirePairs(pairs))
    case _ => o
  }

  function WireItems(items: seq<Obj>): (r: seq<Obj>)
    ensures |r| == |items|
    decreases items, 0
  {
    if items == [] then [] else [Wire(items[0])] + WireItems(items[1..])
  }

  function WirePairs(pairs: seq<Pair>): (r: seq<Pair>)
    ensures |r| == |pairs|
    decreases pairs, 0
  {
    if pairs == [] then [] else [Pair(pairs[0].key, Wire(pairs[0].value))] + WirePairs(pairs[1..])
  }

  // ----- decoding -----

  datatype Fault = TooDeep | Unsupported(format: byte) | KeyNotString

  datatype Result<+T> = Ok(value: T, next: nat) | Incomplete | Malformed(fault: Fault)

  datatype Number = Unsigned | SignedInt | Single | DoubleBits

  datatype Container = Array | Map

  /** The MessagePack format table, as far as it is supported. */
  datatype Format =
    | Fixed(value: Obj)
    | Numeric(width: nat, number: Number)
    | ShortStr(len: nat)
    | LongStr(width: nat, isKey: bool)   // str and bin; only str may be a map key
    | ShortContainer(container: Container, count: nat)
    | LongContainer(container: Container, width: nat)
    | Unknown

  function FormatOf(b: byte): Format {
    if b <= 0x7f then Fixed(Int(b))
    else if b <= 0x8f then ShortContainer(Map, b - 0x80)
    else if b <= 0x9f then ShortContainer(Array, b - 0x90)
    else if b <= 0xbf then ShortStr(b - 0xa0)
    else if b >= 0xe0 then Fixed(Int(b - 256))
    else match b
      case 0xc0 => Fixed(Nil)
      case 0xc2 => Fixed(Bool(false))
      case 0xc3 => Fixed(Bool(true))
      case 0xc4 => LongStr(1, false)
      case 0xc5 => LongStr(2, false)
      case 0xc6 => LongStr(4, false)
      case 0xca => Numeric(4, Single)
      case 0xcb => Numeric(8, DoubleBits)
      case 0xcc => Numeric(1, Unsigned)
      case 0xcd => Numeric(2, Unsigned)
      case 0xce => Numeric(4, Unsigned)
      case 0xcf => Numeric(8, Unsigned)
      case 0xd0 => Numeric(1, SignedInt)
      case 0xd1 => Numeric(2, SignedInt)
      case 0xd2 => Numeric(4, SignedInt)
      case 0xd3 => Numeric(8, SignedInt)
      case 0xd9 => LongStr(1, true)
      case 0xda => LongStr(2, true)
      case 0xdb => LongStr(4, true)
      case 0xdc => LongContainer(Array, 2)
      case 0xdd => LongContainer(Array, 4)
      case 0xde => LongContainer(Map, 2)
      case 0xdf => LongContainer(Map, 4)
      case _ => Unknown
  }

  function NumberValue(number: Number, width: nat, u: nat): Obj {
    match number
    case Unsigned => if u <= INT64_MAX then Int(u) else Float(Rounded(u))
    case SignedInt => Int(Signed(u, width))
    case Single => Float(Widened(u))
    case DoubleBits => Float(Pattern(u))
  }

  /** A scalar, or a container announced by its header. */
  datatype Head = Scalar(value: Obj) | Open(container: Container, count: nat)

  function Payload(buf: bytes, pos: nat, width: nat): nat
    requires pos + 1 + width <= |buf|
  {
    FromBigEndian(buf[pos + 1..pos + 1 + width])
  }

  function StrAt(buf: bytes, start: nat, len: nat): Result<bytes>
    requires start <= |buf|
  {
    if |buf| - start < len then Incomplete else Ok(buf[start..start + len], start + len)
  }

  /** A container is opened only when the rest of the whole buffer could hold one byte per element. */
  function OpenAt(buf: bytes, start: nat, container: Container, count: nat, depth: nat): Result<Head>
    requires start <= |buf|
  {
    if count > |buf| - start then Incomplete
    else if depth >= DEPTH_CAP then Malformed(TooDeep)
    else Ok(Open(container, count), start)
  }

  function AsScalar(r: Result<bytes>): Result<Head> {
    match r
    case Ok(s, next) => Ok(Scalar(Str(s)), next)
    case Incomplete => Incomplete
    case Malformed(fault) => Malformed(fault)
  }

  function HeadAt(buf: bytes, pos: nat, depth: nat): (r: Result<Head>)
    requires pos <= |buf|
    ensures r.Ok? ==> pos < r.next <= |buf|
    ensures r.Ok? && r.value.Open? ==> r.value.count <= |buf| - r.next && depth < DEPTH_CAP
  {
    if pos == |buf| then Incomplete
    else match FormatOf(buf[pos])
      case Fixed(value) => Ok(Scalar(value), pos + 1)
      case Numeric(width, number) =>
        if |buf| - pos < width + 1 then Incomplete
        else Ok(Scalar(NumberValue(number, width, Payload(buf, pos, width))), pos + 1 + width)
      case ShortStr(len) => AsScalar(StrAt(buf, pos + 1, len))
      case LongStr(width, _) =>
        if |buf| - pos < width + 1 then Incomplete
        else AsScalar(StrAt(buf, pos + 1 + width, Payload(buf, pos, width)))
      case ShortContainer(container, count) => OpenAt(buf, pos + 1, container, count, depth)
      case LongContainer(container, width) =>
        if |buf| - pos < width + 1 then Incomplete
        else OpenAt(buf, pos + 1 + width, container, Payload(buf, pos, width), depth)
      case Unknown => Malformed(Unsupported(buf[pos]))
  }

  function KeyAt(buf: bytes, pos: nat): (r: Result<bytes>)
    requires pos <= |buf|
    ensures r.Ok? ==> pos < r.next <= |buf|
  {
    if pos == |buf| then Incomplete
    else match FormatOf(buf[pos])
      case ShortStr(len) => StrAt(buf, pos + 1, len)
      case LongStr(width, true) =>
        if |buf| - pos < width + 1 then Incomplete
        else StrAt(buf, pos + 1 + width, Payload(buf, pos, width))
      case _ => Malformed(KeyNotString)
  }

  function DecValue(buf: bytes, pos: nat, depth: nat): (r: Result<Obj>)
    requires pos <= |buf|
    ensures r.Ok? ==> pos < r.next <= |buf|
    decreases |buf| - pos, 0, 0
  {
    match HeadAt(buf, pos, depth)
    case Incomplete => Incomplete
    case Malformed(fault) => Malformed(fault)
    case Ok(Scalar(value), next) => Ok(value, next)
    case Ok(Open(Array, count), next) => AsArr(DecItems(buf, next, depth + 1, count))
    case Ok(Open(Map, count), next) => AsDict(DecPairs(buf, next, depth + 1, count))
  }

  function AsArr(r: Result<seq<Obj>>): Result<Obj> {
    match r
    case Ok(items, next) => Ok(Arr(items), next)
    case Incomplete => Incomplete
    case Malformed(fault) => Malformed(fault)
  }

  function AsDict(r: Result<seq<Pair>>): Result<Obj> {
    match r
    case Ok(pairs, next) => Ok(Dict(pairs), next)
    case Incomplete => Incomplete
    case Malformed(fault) => Malformed(fault)
  }

  function DecItems(buf: bytes, pos: nat, depth: nat, count: nat): (r: Result<seq<Obj>>)
    requires pos <= |buf|
    ensures r.Ok? ==> pos + count <= r.next <= |buf| && |r.value| == count
    decreases |buf| - pos, 1, count
  {
    if count == 0 then Ok([], pos)
    else match DecValue(buf, pos, depth)
      case Incomplete => Incomplete
      case Malformed(fault) => Malformed(fault)
      case Ok(value, next) =>
        match DecItems(buf, next, depth, count - 1)
        case Incomplete => Incomplete
        case Malformed(fault) => Malformed(fault)
        case Ok(items, end) => Ok([value] + items, end)
  }

  function DecPairs(buf: bytes, pos: nat, depth: nat, count: nat): (r: Result<seq<Pair>>)
    requires pos <= |buf|
    ensures r.Ok? ==> pos + count <= r.next <= |buf| && |r.value| == count
    decreases |buf| - pos, 1, count
  {
    if count == 0 then Ok([], pos)
    else match KeyAt(buf, pos)
      case Incomplete => Incomplete
      case Malformed(fault) => Malformed(fault)
      case Ok(key, next) => DecKeyed(buf, next, depth, key, count)
  }

  /** The pairs that are left once the first one's key has been read. */
  function DecKeyed(buf: bytes, pos: nat, depth: nat, key: bytes, count: nat): (r: Result<seq<Pair>>)
    requires pos <= |buf| && count > 0
    ensures r.Ok? ==> pos + count <= r.next <= |buf| && |r.value| == count
    decreases |buf| - pos, 2, count
  {
    match DecValue(buf, pos, depth)
    case Incomplete => Incomplete
    case Malformed(fault) => Malformed(fault)
    case Ok(value, next) =>
      match DecPairs(buf, next, depth, count - 1)
      case Incomplete => Incomplete
      case Malformed(fault) => Malformed(fault)
      case Ok(pairs, end) => Ok([Pair(key, value)] + pairs, end)
  }

  function AddItem(v: Obj, r: Result<seq<Obj>>): Result<seq<Obj>> {
    if r.Ok? then Ok([v] + r.value, r.next) else r
  }

  function AddPair(p: Pair, r: Result<seq<Pair>>): Result<seq<Pair>> {
    if r.Ok? then Ok([p] + r.value, r.next) else r
  }

  function Decode(buf: bytes): Result<Obj> {
    DecValue(buf, 0, 0)
  }
}
