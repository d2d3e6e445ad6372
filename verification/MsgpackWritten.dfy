/**
 MessagePack as any peer may write it: every supported format of the specification's table, in its shortest form or
 not.  What decodes, to what, and what is refused, each with its converse.
 */
module MsgpackWritten {
  import opened Bytes
  import opened MsgpackSpec
  import L = MsgpackLaws

  // ----- numbers -----

  function Power(n: nat): (p: nat)
    ensures p > 0
  {
    if n == 0 then 1 else 256 * Power(n - 1)
  }

  /** The number that digits to the base 256 stand for, the most significant first. */
  function Number(digits: bytes): nat {
    if digits == [] then 0 else digits[0] * Power(|digits| - 1) + Number(digits[1..])
  }

  /** In two's complement: a leading bit of one stands for minus its weight. */
  function SignedNumber(digits: bytes): int {
    if digits == [] || digits[0] < 128 then Number(digits) else Number(digits) - Power(|digits|)
  }

  // ----- codes -----

  /** The length of a string, binary, array or map: in the format byte, or in the digits behind it. */
  datatype Length = Length(format: byte, digits: bytes)

  function LengthSource(l: Length): bytes { [l.format] + l.digits }

  predicate StrLength(l: Length, n: nat) {
    || (n <= 31 && l == Length(0xa0 + n, []))
    || (Number(l.digits) == n && ((|l.digits| == 1 && l.format == 0xd9) || (|l.digits| == 2 && l.format == 0xda)
        || (|l.digits| == 4 && l.format == 0xdb)))
  }

  predicate BinLength(l: Length, n: nat) {
    Number(l.digits) == n && ((|l.digits| == 1 && l.format == 0xc4) || (|l.digits| == 2 && l.format == 0xc5)
      || (|l.digits| == 4 && l.format == 0xc6))
  }

  predicate ArrLength(l: Length, n: nat) {
    || (n <= 15 && l == Length(0x90 + n, []))
    || (Number(l.digits) == n && ((|l.digits| == 2 && l.format == 0xdc) || (|l.digits| == 4 && l.format == 0xdd)))
  }

  predicate MapLength(l: Length, n: nat) {
    || (n <= 15 && l == Length(0x80 + n, []))
    || (Number(l.digits) == n && ((|l.digits| == 2 && l.format == 0xde) || (|l.digits| == 4 && l.format == 0xdf)))
  }

  /** One byte; a format byte and the digits of a number; text or binary; an array; a map. */
  datatype Code =
    | Fixed(format: byte)
    | Numeral(format: byte, digits: bytes)
    | Text(length: Length, s: bytes)
    | List(length: Length, items: seq<Code>)
    | Table(length: Length, entries: seq<Entry>)

  datatype Entry = Entry(length: Length, key: bytes, value: Code)

  function Source(c: Code): (s: bytes)
    ensures |s| >= 1
    decreases c, 1
  {
    match c
    case Fixed(format) => [format]
    case Numeral(format, digits) => [format] + digits
    case Text(l, s) => LengthSource(l) + s
    case List(l, items) => LengthSource(l) + ItemsSource(items)
    case Table(l, entries) => LengthSource(l) + EntriesSource(entries)
  }

  function ItemsSource(items: seq<Code>): (s: bytes)
    ensures |s| >= |items|
    decreases items, 0
  {
    if items == [] then [] else Source(items[0]) + ItemsSource(items[1..])
  }

  function EntriesSource(entries: seq<Entry>): (s: bytes)
    ensures |s| >= |entries|
    decreases entries, 0
  {
    if entries == [] then []
    else LengthSource(entries[0].length) + entries[0].key + Source(entries[0].value) + EntriesSource(entries[1..])
  }

  /** The formats of numbers: single, double, unsigned and signed of 1, 2, 4 and 8 bytes. */
  predicate NumeralWidth(format: byte, width: nat) {
    || (format == 0xca && width == 4) || (format == 0xcb && width == 8)
    || (format == 0xcc && width == 1) || (format == 0xcd && width == 2)
    || (format == 0xce && width == 4) || (format == 0xcf && width == 8)
    || (format == 0xd0 && width == 1) || (format == 0xd1 && width == 2)
    || (format == 0xd2 && width == 4) || (format == 0xd3 && width == 8)
  }

  predicate Well(c: Code)
    decreases c, 1
  {
    match c
    case Fixed(format) => format <= 0x7f || format >= 0xe0 || format in {0xc0, 0xc2, 0xc3}
    case Numeral(format, digits) => NumeralWidth(format, |digits|)
    case Text(l, s) => StrLength(l, |s|) || BinLength(l, |s|)
    case List(l, items) => ArrLength(l, |items|) && WellItems(items)
    case Table(l, entries) => MapLength(l, |entries|) && WellEntries(entries)
  }

  predicate WellItems(items: seq<Code>)
    decreases items, 0
  {
    items != [] ==> Well(items[0]) && WellItems(items[1..])
  }

  predicate WellEntries(entries: seq<Entry>)
    decreases entries, 0
  {
    entries != [] ==>
      StrLength(entries[0].length, |entries[0].key|) && Well(entries[0].value) && WellEntries(entries[1..])
  }

  /** The object that a code stands for; an unsigned number past the signed 64 bits is a double. */
  function Value(c: Code): Obj
    decreases c, 1
  {
    match c
    case Fixed(format) =>
      if format == 0xc0 then Nil else if format == 0xc2 then Bool(false) else if format == 0xc3 then Bool(true)
      else Int(if format < 128 then format else format - 256)
    case Numeral(format, digits) =>
      if format == 0xca then Float(Widened(Number(digits)))
      else if format == 0xcb then Float(Pattern(Number(digits)))
      else if format >= 0xd0 then Int(SignedNumber(digits))
      else if Number(digits) <= 0x7fff_ffff_ffff_ffff then Int(Number(digits))
      else Float(Rounded(Number(digits)))
    case Text(_, s) => Str(s)
    case List(_, items) => Arr(Values(items))
    case Table(_, entries) => Dict(Pairs(entries))
  }

  function Values(items: seq<Code>): (r: seq<Obj>)
    ensures |r| == |items|
    decreases items, 0
  {
    if items == [] then [] else [Value(items[0])] + Values(items[1..])
  }

  function Pairs(entries: seq<Entry>): (r: seq<Pair>)
    ensures |r| == |entries|
    decreases entries, 0
  {
    if entries == [] then [] else [Pair(entries[0].key, Value(entries[0].value))] + Pairs(entries[1..])
  }

  /** How many containers are open at once. */
  function Levels(c: Code): nat
    decreases c, 1
  {
    match c
    case List(_, items) => 1 + ItemLevels(items)
    case Table(_, entries) => 1 + EntryLevels(entries)
    case _ => 0
  }

  function ItemLevels(items: seq<Code>): nat
    decreases items, 0
  {
    if items == [] then 0 else Max(Levels(items[0]), ItemLevels(items[1..]))
  }

  function EntryLevels(entries: seq<Entry>): nat
    decreases entries, 0
  {
    if entries == [] then 0 else Max(Levels(entries[0].value), EntryLevels(entries[1..]))
  }

  // ----- numbers are what the reader makes of them -----

  lemma Shifted(d: nat, p: nat, n: nat, last: nat)
    ensures d * (256 * p) + (256 * n + last) == 256 * (d * p + n) + last
  {
  }

  lemma {:induction false} NumberBack(b: bytes)
    requires b != []
    ensures Number(b) == 256 * Number(b[..|b| - 1]) + b[|b| - 1]
    decreases |b|
  {
    var n := |b| - 1;
    if n == 0 {
      assert b[1..] == [] && b[..0] == [];
      assert Power(0) == 1;
    } else {
      NumberBack(b[1..]);
      assert b[1..][..n - 1] == b[..n][1..];
      assert b[..n][0] == b[0];
      Shifted(b[0], Power(n - 1), Number(b[..n][1..]), b[n]);
    }
  }

  lemma {:induction false} NumberReads(b: bytes)
    ensures FromBigEndian(b) == Number(b) && Number(b) < Power(|b|) && Power(|b|) == Pow256(|b|)
    decreases |b|
  {
    if b != [] {
      NumberReads(b[..|b| - 1]);
      NumberBack(b);
    }
  }

  lemma {:induction false} SignedReads(b: bytes)
    requires b != []
    ensures Signed(Number(b), |b|) == SignedNumber(b)
  {
    NumberReads(b);
    NumberReads(b[1..]);
    var p := Power(|b| - 1);
    Halves(b[0], p, Number(b[1..]));
  }

  lemma Halves(d: byte, p: nat, n: nat)
    requires n < p
    ensures d < 128 <==> d * p + n < (256 * p) / 2
  {
    if d < 128 { assert d * p <= 127 * p; } else { assert d * p >= 128 * p; }
  }

  /** The digits behind a format byte. */
  lemma DigitsRead(buf: bytes, pos: nat, format: byte, digits: bytes)
    requires L.Holds(buf, pos, [format] + digits)
    ensures pos + 1 + |digits| <= |buf| && buf[pos] == format
    ensures Payload(buf, pos, |digits|) == Number(digits)
  {
    hide Number, FromBigEndian, L.Holds;
    L.HoldsParts(buf, pos, [format], digits);
    OneByte(buf, pos, format);
    PayloadIs(buf, pos, digits);
    NumberReads(digits);
  }

  lemma OneByte(buf: bytes, pos: nat, format: byte)
    requires L.Holds(buf, pos, [format])
    ensures pos < |buf| && buf[pos] == format
  {
  }

  lemma PayloadIs(buf: bytes, pos: nat, digits: bytes)
    requires L.Holds(buf, pos + 1, digits)
    ensures pos + 1 + |digits| <= |buf| && Payload(buf, pos, |digits|) == FromBigEndian(digits)
  {
    hide FromBigEndian;
  }

  /** And back. */
  lemma DigitsFound(buf: bytes, pos: nat, w: nat) returns (digits: bytes)
    requires pos + 1 + w <= |buf|
    ensures |digits| == w && Payload(buf, pos, w) == Number(digits)
    ensures [buf[pos]] + digits == buf[pos..pos + 1 + w]
  {
    digits := buf[pos + 1..pos + 1 + w];
    NumberReads(digits);
  }

  // ----- heads -----

  /** A code that is no container. */
  predicate IsScalar(c: Code) { c.Fixed? || c.Numeral? || c.Text? }

  lemma NumeralReads(buf: bytes, pos: nat, depth: nat, format: byte, digits: bytes)
    requires NumeralWidth(format, |digits|) && L.Holds(buf, pos, [format] + digits)
    ensures HeadAt(buf, pos, depth) == Ok(Scalar(Value(Numeral(format, digits))), pos + 1 + |digits|)
  {
    hide Number, SignedNumber, Signed, Payload;
    DigitsRead(buf, pos, format, digits);
    SignedReads(digits);
  }

  lemma TextReads(buf: bytes, pos: nat, depth: nat, l: Length, s: bytes)
    requires StrLength(l, |s|) || BinLength(l, |s|)
    requires L.Holds(buf, pos, LengthSource(l) + s)
    ensures HeadAt(buf, pos, depth) == Ok(Scalar(Str(s)), pos + 1 + |l.digits| + |s|)
    ensures StrLength(l, |s|) ==> KeyAt(buf, pos) == Ok(s, pos + 1 + |l.digits| + |s|)
  {
    hide Number, Payload;
    L.HoldsParts(buf, pos, LengthSource(l), s);
    DigitsRead(buf, pos, l.format, l.digits);
  }

  lemma ScalarReads(buf: bytes, pos: nat, depth: nat, c: Code)
    requires Well(c) && IsScalar(c) && L.Holds(buf, pos, Source(c))
    ensures HeadAt(buf, pos, depth) == Ok(Scalar(Value(c)), pos + |Source(c)|)
  {
    hide HeadAt, NumeralWidth, StrLength, BinLength;
    match c
    case Fixed(format) => FixedReads(buf, pos, depth, format);
    case Numeral(format, digits) => NumeralReads(buf, pos, depth, format, digits);
    case Text(l, s) => TextReads(buf, pos, depth, l, s);
  }

  lemma FixedReads(buf: bytes, pos: nat, depth: nat, format: byte)
    requires Well(Code.Fixed(format)) && L.Holds(buf, pos, [format])
    ensures HeadAt(buf, pos, depth) == Ok(Scalar(Value(Code.Fixed(format))), pos + 1)
  {
    assert buf[pos] == format;
  }

  lemma LengthReads(buf: bytes, pos: nat, depth: nat, l: Length, n: nat)
    requires L.Holds(buf, pos, LengthSource(l))
    ensures ArrLength(l, n) ==> HeadAt(buf, pos, depth) == OpenAt(buf, pos + 1 + |l.digits|, Array, n, depth)
    ensures MapLength(l, n) ==> HeadAt(buf, pos, depth) == OpenAt(buf, pos + 1 + |l.digits|, Map, n, depth)
  {
    hide Number, Payload, OpenAt;
    DigitsRead(buf, pos, l.format, l.digits);
  }

  /** Every scalar that is read is a code's. */
  lemma ScalarFound(buf: bytes, pos: nat, depth: nat) returns (c: Code)
    requires pos < |buf| && HeadAt(buf, pos, depth).Ok? && HeadAt(buf, pos, depth).value.Scalar?
    ensures Well(c) && IsScalar(c) && Source(c) == buf[pos..HeadAt(buf, pos, depth).next]
    ensures Value(c) == HeadAt(buf, pos, depth).value.value
  {
    hide Number, SignedNumber, Signed, Payload;
    var next := HeadAt(buf, pos, depth).next;
    match FormatOf(buf[pos])
    case Fixed(_) =>
      assert buf[pos..next] == [buf[pos]];
      c := Code.Fixed(buf[pos]);
    case Numeric(width, _) =>
      var digits := DigitsFound(buf, pos, width);
      SignedReads(digits);
      c := Numeral(buf[pos], digits);
    case ShortStr(len) =>
      var s := buf[pos + 1..next];
      assert buf[pos..next] == [buf[pos]] + [] + s;
      c := Text(Length(buf[pos], []), s);
    case LongStr(width, _) =>
      var digits := DigitsFound(buf, pos, width);
      var s := buf[pos + 1 + width..next];
      assert buf[pos..next] == buf[pos..pos + 1 + width] + s;
      c := Text(Length(buf[pos], digits), s);
    case _ =>
  }

  lemma KeyFound(buf: bytes, pos: nat) returns (l: Length)
    requires pos < |buf| && KeyAt(buf, pos).Ok?
    ensures StrLength(l, |KeyAt(buf, pos).value|)
    ensures LengthSource(l) + KeyAt(buf, pos).value == buf[pos..KeyAt(buf, pos).next]
  {
    hide Number, Payload;
    var next, s := KeyAt(buf, pos).next, KeyAt(buf, pos).value;
    match FormatOf(buf[pos])
    case ShortStr(len) =>
      l := Length(buf[pos], []);
      assert buf[pos..next] == [buf[pos]] + [] + s;
    case LongStr(width, _) =>
      var digits := DigitsFound(buf, pos, width);
      l := Length(buf[pos], digits);
      assert buf[pos..next] == buf[pos..pos + 1 + width] + s;
    case _ =>
  }

  lemma LengthFound(buf: bytes, pos: nat, depth: nat) returns (l: Length)
    requires pos < |buf| && HeadAt(buf, pos, depth).Ok? && HeadAt(buf, pos, depth).value.Open?
    ensures LengthSource(l) == buf[pos..HeadAt(buf, pos, depth).next]
    ensures var h := HeadAt(buf, pos, depth).value;
      if h.container == Array then ArrLength(l, h.count) else MapLength(l, h.count)
  {
    hide Number, Payload;
    var next := HeadAt(buf, pos, depth).next;
    match FormatOf(buf[pos])
    case ShortContainer(_, count) =>
      l := Length(buf[pos], []);
      assert buf[pos..next] == [buf[pos]] + [];
    case LongContainer(_, width) =>
      var digits := DigitsFound(buf, pos, width);
      l := Length(buf[pos], digits);
    case _ =>
  }

  // ----- what is written decodes -----

  lemma ListOpens(buf: bytes, pos: nat, depth: nat, l: Length, count: nat, body: bytes)
    requires ArrLength(l, count) && depth < DEPTH_CAP && L.Holds(buf, pos, LengthSource(l) + body) && count <= |body|
    ensures var start := pos + 1 + |l.digits|;
      && L.Holds(buf, start, body) && start <= |buf|
      && DecValue(buf, pos, depth) == AsArr(DecItems(buf, start, depth + 1, count))
  {
    hide HeadAt, ArrLength, L.Holds, DecItems;
    L.HoldsParts(buf, pos, LengthSource(l), body);
    RoomLeft(buf, pos + 1 + |l.digits|, body);
    LengthReads(buf, pos, depth, l, count);
  }

  lemma TableOpens(buf: bytes, pos: nat, depth: nat, l: Length, count: nat, body: bytes)
    requires MapLength(l, count) && depth < DEPTH_CAP && L.Holds(buf, pos, LengthSource(l) + body) && count <= |body|
    ensures var start := pos + 1 + |l.digits|;
      && L.Holds(buf, start, body) && start <= |buf|
      && DecValue(buf, pos, depth) == AsDict(DecPairs(buf, start, depth + 1, count))
  {
    hide HeadAt, MapLength, L.Holds, DecPairs;
    L.HoldsParts(buf, pos, LengthSource(l), body);
    RoomLeft(buf, pos + 1 + |l.digits|, body);
    LengthReads(buf, pos, depth, l, count);
  }

  lemma ScalarDecodes(buf: bytes, pos: nat, depth: nat, c: Code)
    requires Well(c) && IsScalar(c) && L.Holds(buf, pos, Source(c))
    ensures DecValue(buf, pos, depth) == Ok(Value(c), pos + |Source(c)|)
  {
    hide HeadAt, Well, Value, Source;
    ScalarReads(buf, pos, depth, c);
  }

  lemma {:induction false} ValueReads(buf: bytes, pos: nat, depth: nat, c: Code)
    requires Well(c) && depth + Levels(c) <= DEPTH_CAP && L.Holds(buf, pos, Source(c))
    ensures DecValue(buf, pos, depth) == Ok(Value(c), pos + |Source(c)|)
    decreases c, 2
  {
    hide HeadAt, ArrLength, MapLength, L.Holds, DecValue, DecItems, DecPairs;
    match c
    case List(l, items) =>
      ListOpens(buf, pos, depth, l, |items|, ItemsSource(items));
      ItemsRead(buf, pos + 1 + |l.digits|, depth + 1, items);
    case Table(l, entries) =>
      TableOpens(buf, pos, depth, l, |entries|, EntriesSource(entries));
      EntriesRead(buf, pos + 1 + |l.digits|, depth + 1, entries);
    case _ => ScalarDecodes(buf, pos, depth, c);
  }

  lemma RoomLeft(buf: bytes, pos: nat, s: bytes)
    requires L.Holds(buf, pos, s)
    ensures pos + |s| <= |buf|
  {
  }

  lemma {:induction false} ItemsRead(buf: bytes, pos: nat, depth: nat, items: seq<Code>)
    requires WellItems(items) && depth + ItemLevels(items) <= DEPTH_CAP && L.Holds(buf, pos, ItemsSource(items))
    ensures pos <= |buf|
    ensures DecItems(buf, pos, depth, |items|) == Ok(Values(items), pos + |ItemsSource(items)|)
    decreases items, 1
  {
    hide L.Holds, DecValue;
    RoomLeft(buf, pos, ItemsSource(items));
    if items != [] {
      var s, rest := Source(items[0]), ItemsSource(items[1..]);
      L.HoldsParts(buf, pos, s, rest);
      ValueReads(buf, pos, depth, items[0]);
      ItemsRead(buf, pos + |s|, depth, items[1..]);
      L.ItemsStep(buf, pos, depth, |items|, Value(items[0]), pos + |s|);
    }
  }

  lemma EntryParts(buf: bytes, pos: nat, entries: seq<Entry>)
    requires entries != [] && L.Holds(buf, pos, EntriesSource(entries))
    ensures var e := entries[0];
      var mid := pos + |LengthSource(e.length) + e.key|;
      && L.Holds(buf, pos, LengthSource(e.length) + e.key) && L.Holds(buf, mid, Source(e.value))
      && L.Holds(buf, mid + |Source(e.value)|, EntriesSource(entries[1..]))
      && |EntriesSource(entries)| == mid - pos + |Source(e.value)| + |EntriesSource(entries[1..])|
      && mid <= |buf|
  {
    hide L.Holds, Source;
    var e := entries[0];
    var k, v, rest := LengthSource(e.length) + e.key, Source(e.value), EntriesSource(entries[1..]);
    assert EntriesSource(entries) == k + v + rest;
    L.HoldsParts(buf, pos, k + v, rest);
    L.HoldsParts(buf, pos, k, v);
    RoomLeft(buf, pos, k);
  }

  lemma {:induction false} EntryValue(buf: bytes, pos: nat, depth: nat, e: Entry)
    requires StrLength(e.length, |e.key|) && Well(e.value) && depth + Levels(e.value) <= DEPTH_CAP
    requires L.Holds(buf, pos, LengthSource(e.length) + e.key)
    requires L.Holds(buf, pos + |LengthSource(e.length) + e.key|, Source(e.value))
    ensures var mid := pos + |LengthSource(e.length) + e.key|;
      && pos <= |buf| && mid <= |buf| && KeyAt(buf, pos) == Ok(e.key, mid)
      && DecValue(buf, mid, depth) == Ok(Value(e.value), mid + |Source(e.value)|)
    decreases e, 3
  {
    hide DecValue, L.Holds, StrLength, KeyAt, Source, Value, Well, Levels;
    var mid := pos + |LengthSource(e.length) + e.key|;
    RoomLeft(buf, mid, Source(e.value));
    TextReads(buf, pos, depth, e.length, e.key);
    ValueReads(buf, mid, depth, e.value);
  }

  lemma {:induction false} EntriesRead(buf: bytes, pos: nat, depth: nat, entries: seq<Entry>)
    requires WellEntries(entries) && depth + EntryLevels(entries) <= DEPTH_CAP
    requires L.Holds(buf, pos, EntriesSource(entries))
    ensures pos <= |buf|
    ensures DecPairs(buf, pos, depth, |entries|) == Ok(Pairs(entries), pos + |EntriesSource(entries)|)
    decreases entries, 1
  {
    hide L.Holds, DecValue, KeyAt, StrLength, DecKeyed, LengthSource;
    RoomLeft(buf, pos, EntriesSource(entries));
    if entries != [] {
      var e := entries[0];
      var mid := pos + |LengthSource(e.length) + e.key|;
      EntryParts(buf, pos, entries);
      var next := mid + |Source(e.value)|;
      EntryValue(buf, pos, depth, e);
      EntriesRead(buf, next, depth, entries[1..]);
      L.PairsStep(buf, pos, depth, |entries|, e.key, mid, Value(e.value), next);
    }
  }

  // ----- what decodes is written -----

  lemma {:induction false} ValueFound(buf: bytes, pos: nat, depth: nat) returns (c: Code)
    requires pos <= |buf| && DecValue(buf, pos, depth).Ok? && depth <= DEPTH_CAP
    ensures Well(c) && depth + Levels(c) <= DEPTH_CAP && Source(c) == buf[pos..DecValue(buf, pos, depth).next]
    ensures Value(c) == DecValue(buf, pos, depth).value
    decreases |buf| - pos, 0, 0
  {
    hide HeadAt, ArrLength, MapLength;
    match HeadAt(buf, pos, depth)
    case Ok(Scalar(_), _) =>
      c := ScalarFound(buf, pos, depth);
    case Ok(Open(Array, count), next) =>
      var l := LengthFound(buf, pos, depth);
      var items := ItemsFound(buf, next, depth + 1, count);
      Joins(buf, pos, next, DecValue(buf, pos, depth).next);
      c := List(l, items);
    case Ok(Open(Map, count), next) =>
      var l := LengthFound(buf, pos, depth);
      var entries := EntriesFound(buf, next, depth + 1, count);
      Joins(buf, pos, next, DecValue(buf, pos, depth).next);
      c := Table(l, entries);
    case _ =>
  }

  lemma Joins(buf: bytes, a: nat, b: nat, c: nat)
    requires a <= b <= c <= |buf|
    ensures buf[a..b] + buf[b..c] == buf[a..c]
  {
  }

  lemma {:induction false} ItemsFound(buf: bytes, pos: nat, depth: nat, count: nat) returns (items: seq<Code>)
    requires pos <= |buf| && DecItems(buf, pos, depth, count).Ok? && depth <= DEPTH_CAP
    ensures |items| == count && WellItems(items) && depth + ItemLevels(items) <= DEPTH_CAP
    ensures ItemsSource(items) == buf[pos..DecItems(buf, pos, depth, count).next]
    ensures Values(items) == DecItems(buf, pos, depth, count).value
    decreases |buf| - pos, 1, count
  {
    hide DecValue;
    if count == 0 {
      items := [];
    } else {
      var next := DecValue(buf, pos, depth).next;
      var first := ValueFound(buf, pos, depth);
      var more := ItemsFound(buf, next, depth, count - 1);
      items := [first] + more;
      assert items[0] == first && items[1..] == more;
      Joins(buf, pos, next, DecItems(buf, next, depth, count - 1).next);
    }
  }

  lemma {:induction false} EntriesFound(buf: bytes, pos: nat, depth: nat, count: nat) returns (entries: seq<Entry>)
    requires pos <= |buf| && DecPairs(buf, pos, depth, count).Ok? && depth <= DEPTH_CAP
    ensures |entries| == count && WellEntries(entries) && depth + EntryLevels(entries) <= DEPTH_CAP
    ensures EntriesSource(entries) == buf[pos..DecPairs(buf, pos, depth, count).next]
    ensures Pairs(entries) == DecPairs(buf, pos, depth, count).value
    decreases |buf| - pos, 1, count
  {
    hide DecValue, KeyAt, StrLength;
    if count == 0 {
      entries := [];
    } else {
      var mid, key := KeyAt(buf, pos).next, KeyAt(buf, pos).value;
      assert DecPairs(buf, pos, depth, count) == DecKeyed(buf, mid, depth, key, count);
      var next := DecValue(buf, mid, depth).next;
      if pos == |buf| { NoKey(buf); }
      var l := KeyFound(buf, pos);
      var value := ValueFound(buf, mid, depth);
      var more := EntriesFound(buf, next, depth, count - 1);
      var e := Entry(l, key, value);
      entries := [e] + more;
      assert entries[0] == e && entries[1..] == more;
      Joins(buf, pos, mid, next);
      Joins(buf, pos, next, DecPairs(buf, next, depth, count - 1).next);
    }
  }

  lemma NoKey(buf: bytes)
    ensures KeyAt(buf, |buf|) == Incomplete
  {
  }

  /** The first `n` bytes are a code of this object with at most 32 containers open at once. */
  ghost predicate Encodes(c: Code, buf: bytes, v: Obj, n: nat) {
    Well(c) && Levels(c) <= 32 && Value(c) == v && n <= |buf| && Source(c) == buf[..n]
  }

  /** A buffer decodes exactly when it begins with the code of an object, to that object, and takes just the code. */
  lemma DecodesIff(buf: bytes, v: Obj, n: nat)
    ensures Decode(buf) == Ok(v, n) <==> exists c :: Encodes(c, buf, v, n)
  {
    hide DecValue, Well, Levels, Value, Source;
    if Decode(buf) == Ok(v, n) {
      var c := ValueFound(buf, 0, 0);
      assert buf[0..n] == buf[..n];
      assert Encodes(c, buf, v, n);
    }
    if c :| Encodes(c, buf, v, n) {
      assert buf[0..n] == buf[..n];
      ValueReads(buf, 0, 0, c);
    }
  }

  // ----- what is refused -----

  /** The beginning of a code up to the byte that cannot be: where it lies, and what was written before it. */
  datatype Broken =
    | BadFormat(format: byte)
    | OneTooDeep(length: Length, count: nat)
    | InItem(length: Length, count: nat, done: seq<Code>, inner: Broken)
    | BadKey(length: Length, count: nat, entries: seq<Entry>, format: byte)
    | InEntry(length: Length, count: nat, entries: seq<Entry>, keyLength: Length, key: bytes, inner: Broken)

  function Begun(b: Broken): (s: bytes)
    ensures |s| >= 1
  {
    match b
    case BadFormat(format) => [format]
    case OneTooDeep(l, _) => LengthSource(l)
    case InItem(l, _, done, inner) => LengthSource(l) + (ItemsSource(done) + Begun(inner))
    case BadKey(l, _, entries, format) => LengthSource(l) + (EntriesSource(entries) + [format])
    case InEntry(l, _, entries, k, key, inner) =>
      LengthSource(l) + (EntriesSource(entries) + (LengthSource(k) + key + Begun(inner)))
  }

  function FaultOf(b: Broken): Fault {
    match b
    case BadFormat(format) => Unsupported(format)
    case OneTooDeep(_, _) => TooDeep
    case BadKey(_, _, _, _) => KeyNotString
    case InItem(_, _, _, inner) => FaultOf(inner)
    case InEntry(_, _, _, _, _, inner) => FaultOf(inner)
  }

  /** The byte that is never used and the extension types. */
  predicate NoFormat(b: byte) { b == 0xc1 || 0xc7 <= b <= 0xc9 || 0xd4 <= b <= 0xd8 }

  predicate StrFormat(b: byte) { 0xa0 <= b <= 0xbf || 0xd9 <= b <= 0xdb }

  /** With `after` bytes behind it: every container so far has as many bytes left as it has elements. */
  predicate Breaks(b: Broken, depth: nat, after: nat) {
    match b
    case BadFormat(format) => NoFormat(format)
    case OneTooDeep(l, count) => (ArrLength(l, count) || MapLength(l, count)) && depth == 32 && count <= after
    case InItem(l, count, done, inner) =>
      && ArrLength(l, count) && |done| < count <= |ItemsSource(done)| + |Begun(inner)| + after
      && WellItems(done) && depth + 1 + ItemLevels(done) <= 32 && Breaks(inner, depth + 1, after)
    case BadKey(l, count, entries, format) =>
      && MapLength(l, count) && |entries| < count <= |EntriesSource(entries)| + 1 + after
      && WellEntries(entries) && depth + 1 + EntryLevels(entries) <= 32 && !StrFormat(format)
    case InEntry(l, count, entries, k, key, inner) =>
      && MapLength(l, count)
      && |entries| < count <= |EntriesSource(entries)| + |LengthSource(k)| + |key| + |Begun(inner)| + after
      && WellEntries(entries) && depth + 1 + EntryLevels(entries) <= 32
      && StrLength(k, |key|) && Breaks(inner, depth + 1, after)
  }

  /** The buffer goes on from `pos` with these bytes, and `after` more. */
  predicate Ends(buf: bytes, pos: nat, s: bytes, after: nat) {
    pos <= |buf| && |buf| == pos + |s| + after && buf[pos..pos + |s|] == s
  }

  lemma EndsParts(buf: bytes, pos: nat, a: bytes, b: bytes, after: nat)
    requires Ends(buf, pos, a + b, after)
    ensures L.Holds(buf, pos, a) && Ends(buf, pos + |a|, b, after) && pos + |a| <= |buf|
  {
    var s := buf[pos..pos + |a + b|];
    assert buf[pos..pos + |a|] == s[..|a|] == a;
    assert buf[pos + |a|..pos + |a| + |b|] == s[|a|..] == b;
  }

  lemma {:induction false} ArrayOpens(buf: bytes, pos: nat, depth: nat, l: Length, count: nat, body: bytes, after: nat)
    requires ArrLength(l, count) && depth < DEPTH_CAP && count <= |body| + after
    requires Ends(buf, pos, LengthSource(l) + body, after)
    ensures var start := pos + 1 + |l.digits|;
      && Ends(buf, start, body, after) && start <= |buf|
      && DecValue(buf, pos, depth) == AsArr(DecItems(buf, start, depth + 1, count))
  {
    hide HeadAt, ArrLength, DecItems, L.Holds;
    EndsParts(buf, pos, LengthSource(l), body, after);
    LengthReads(buf, pos, depth, l, count);
  }

  lemma {:induction false} MapOpens(buf: bytes, pos: nat, depth: nat, l: Length, count: nat, body: bytes, after: nat)
    requires MapLength(l, count) && depth < DEPTH_CAP && count <= |body| + after
    requires Ends(buf, pos, LengthSource(l) + body, after)
    ensures var start := pos + 1 + |l.digits|;
      && Ends(buf, start, body, after) && start <= |buf|
      && DecValue(buf, pos, depth) == AsDict(DecPairs(buf, start, depth + 1, count))
  {
    hide HeadAt, MapLength, DecPairs, L.Holds;
    EndsParts(buf, pos, LengthSource(l), body, after);
    LengthReads(buf, pos, depth, l, count);
  }

  lemma NoFormatReads(buf: bytes, pos: nat, depth: nat, format: byte, after: nat)
    requires NoFormat(format) && Ends(buf, pos, [format], after)
    ensures DecValue(buf, pos, depth) == Malformed(Unsupported(format))
  {
    assert buf[pos] == format;
    assert HeadAt(buf, pos, depth) == Malformed(Unsupported(format));
  }

  lemma AtCap(buf: bytes, pos: nat, l: Length, count: nat, after: nat)
    requires (ArrLength(l, count) || MapLength(l, count)) && count <= after && Ends(buf, pos, LengthSource(l), after)
    ensures DecValue(buf, pos, DEPTH_CAP) == Malformed(TooDeep)
  {
    hide HeadAt, ArrLength, MapLength;
    LengthReads(buf, pos, DEPTH_CAP, l, count);
  }

  lemma {:induction false} BrokenReads(buf: bytes, pos: nat, depth: nat, b: Broken, after: nat)
    requires Breaks(b, depth, after) && Ends(buf, pos, Begun(b), after)
    ensures DecValue(buf, pos, depth) == Malformed(FaultOf(b))
    decreases b, 1
  {
    hide HeadAt, ArrLength, MapLength, StrLength, NoFormat, StrFormat, Ends, DecValue, DecItems, DecPairs, LengthSource;
    match b
    case BadFormat(format) => NoFormatReads(buf, pos, depth, format, after);
    case OneTooDeep(l, count) => AtCap(buf, pos, l, count, after);
    case InItem(l, count, done, inner) =>
      ArrayOpens(buf, pos, depth, l, count, ItemsSource(done) + Begun(inner), after);
      ItemsBreak(buf, pos + 1 + |l.digits|, depth + 1, done, inner, count, after);
    case BadKey(l, count, entries, format) =>
      MapOpens(buf, pos, depth, l, count, EntriesSource(entries) + [format], after);
      EntriesBreak(buf, pos + 1 + |l.digits|, depth + 1, entries, [format], count, after);
      KeyBreaks(buf, pos + 1 + |l.digits| + |EntriesSource(entries)|, depth + 1, format, count - |entries|, after);
    case InEntry(l, count, entries, k, key, inner) =>
      var tail := LengthSource(k) + key + Begun(inner);
      MapOpens(buf, pos, depth, l, count, EntriesSource(entries) + tail, after);
      EntriesBreak(buf, pos + 1 + |l.digits|, depth + 1, entries, tail, count, after);
      EntryBreaks(buf, pos + 1 + |l.digits| + |EntriesSource(entries)|, depth + 1, k, key, inner, count - |entries|,
        after);
  }

  lemma {:induction false} ItemsBreak(buf: bytes, pos: nat, depth: nat, done: seq<Code>, inner: Broken, count: nat,
      after: nat)
    requires |done| < count && WellItems(done) && depth + ItemLevels(done) <= DEPTH_CAP && Breaks(inner, depth, after)
    requires Ends(buf, pos, ItemsSource(done) + Begun(inner), after)
    ensures pos <= |buf| && DecItems(buf, pos, depth, count) == Malformed(FaultOf(inner))
    decreases inner, 2, done
  {
    hide DecValue, Ends, L.Holds, Breaks;
    if done == [] {
      assert [] + Begun(inner) == Begun(inner);
      EndsParts(buf, pos, [], Begun(inner), after);
      BrokenReads(buf, pos, depth, inner, after);
    } else {
      var s, rest := Source(done[0]), ItemsSource(done[1..]) + Begun(inner);
      assert ItemsSource(done) + Begun(inner) == s + rest;
      EndsParts(buf, pos, s, rest, after);
      ValueReads(buf, pos, depth, done[0]);
      ItemsBreak(buf, pos + |s|, depth, done[1..], inner, count - 1, after);
      L.ItemsStep(buf, pos, depth, count, Value(done[0]), pos + |s|);
    }
  }

  /** Once the first entries have been read, the verdict is that on the rest, unless it is about to succeed. */
  lemma {:induction false} EntriesBreak(buf: bytes, pos: nat, depth: nat, entries: seq<Entry>, tail: bytes, count: nat,
      after: nat)
    requires |entries| < count && WellEntries(entries) && depth + EntryLevels(entries) <= DEPTH_CAP
    requires Ends(buf, pos, EntriesSource(entries) + tail, after)
    ensures var rest := pos + |EntriesSource(entries)|;
      && pos <= rest <= |buf| && Ends(buf, rest, tail, after)
      && var r := DecPairs(buf, rest, depth, count - |entries|); !r.Ok? ==> DecPairs(buf, pos, depth, count) == r
    decreases entries
  {
    hide Ends, L.Holds, DecPairs, WellEntries, EntryLevels;
    EndsParts(buf, pos, EntriesSource(entries), tail, after);
    if entries == [] {
      assert pos + |EntriesSource(entries)| == pos;
    } else {
      var next := FirstEntryReads(buf, pos, depth, entries, tail, count, after);
      EntriesBreak(buf, next, depth, entries[1..], tail, count - 1, after);
    }
  }

  lemma FirstEntryReads(buf: bytes, pos: nat, depth: nat, entries: seq<Entry>, tail: bytes, count: nat, after: nat)
      returns (next: nat)
    requires entries != [] && |entries| < count && WellEntries(entries)
    requires depth + EntryLevels(entries) <= DEPTH_CAP && Ends(buf, pos, EntriesSource(entries) + tail, after)
    ensures pos <= |buf| && next <= |buf| && next + |EntriesSource(entries[1..])| == pos + |EntriesSource(entries)|
    ensures Ends(buf, next, EntriesSource(entries[1..]) + tail, after)
    ensures WellEntries(entries[1..]) && depth + EntryLevels(entries[1..]) <= DEPTH_CAP
    ensures var r := DecPairs(buf, next, depth, count - 1); !r.Ok? ==> DecPairs(buf, pos, depth, count) == r
  {
    hide DecValue, Ends, L.Holds, StrLength, KeyAt, DecKeyed, DecPairs, LengthSource;
    EndsParts(buf, pos, EntriesSource(entries), tail, after);
    var e := entries[0];
    EntryParts(buf, pos, entries);
    var mid := pos + |LengthSource(e.length) + e.key|;
    next := mid + |Source(e.value)|;
    EndsBehind(buf, pos, entries, tail, after);
    RoomLeft(buf, mid, Source(e.value));
    EntryValue(buf, pos, depth, e);
    L.PairsStep(buf, pos, depth, count, e.key, mid, Value(e.value), next);
  }

  lemma EndsBehind(buf: bytes, pos: nat, entries: seq<Entry>, tail: bytes, after: nat)
    requires entries != [] && Ends(buf, pos, EntriesSource(entries) + tail, after)
    ensures var e := entries[0];
      Ends(buf, pos + |LengthSource(e.length) + e.key| + |Source(e.value)|, EntriesSource(entries[1..]) + tail, after)
  {
    hide Ends, Source;
    var e := entries[0];
    var front, rest := LengthSource(e.length) + e.key + Source(e.value), EntriesSource(entries[1..]);
    assert EntriesSource(entries) == front + rest;
    assert EntriesSource(entries) + tail == front + (rest + tail);
    EndsParts(buf, pos, front, rest + tail, after);
  }

  lemma KeyBreaks(buf: bytes, pos: nat, depth: nat, format: byte, count: nat, after: nat)
    requires !StrFormat(format) && count > 0 && Ends(buf, pos, [format], after)
    ensures DecPairs(buf, pos, depth, count) == Malformed(KeyNotString)
  {
    assert buf[pos] == format;
    assert KeyAt(buf, pos) == Malformed(KeyNotString);
  }

  lemma {:induction false} EntryBreaks(buf: bytes, pos: nat, depth: nat, k: Length, key: bytes, inner: Broken,
      count: nat, after: nat)
    requires StrLength(k, |key|) && count > 0 && Breaks(inner, depth, after)
    requires Ends(buf, pos, LengthSource(k) + key + Begun(inner), after)
    ensures pos <= |buf| && DecPairs(buf, pos, depth, count) == Malformed(FaultOf(inner))
    decreases inner, 2
  {
    hide DecValue, Ends, Breaks, StrLength, KeyAt, L.Holds;
    var mid := pos + |LengthSource(k) + key|;
    EndsParts(buf, pos, LengthSource(k) + key, Begun(inner), after);
    TextReads(buf, pos, depth, k, key);
    BrokenReads(buf, mid, depth, inner, after);
    assert DecPairs(buf, pos, depth, count) == DecKeyed(buf, mid, depth, key, count);
  }

  /** A beginning of a code stands at `pos` and breaks with this fault. */
  predicate BrokenAt(buf: bytes, pos: nat, depth: nat, b: Broken, fault: Fault) {
    && L.Holds(buf, pos, Begun(b)) && FaultOf(b) == fault
    && Breaks(b, depth, |buf| - pos - |Begun(b)|)
  }

  /** Behind some items. */
  predicate ItemsBrokenAt(buf: bytes, pos: nat, depth: nat, count: nat, done: seq<Code>, b: Broken, fault: Fault) {
    && |done| < count && WellItems(done) && depth + ItemLevels(done) <= DEPTH_CAP
    && L.Holds(buf, pos, ItemsSource(done)) && BrokenAt(buf, pos + |ItemsSource(done)|, depth, b, fault)
  }

  /** In a key or a value of a map. */
  datatype InMap = InKey(format: byte) | InValue(keyLength: Length, key: bytes, inner: Broken)

  predicate TailBrokenAt(buf: bytes, pos: nat, depth: nat, m: InMap, fault: Fault) {
    match m
    case InKey(format) => L.Holds(buf, pos, [format]) && !StrFormat(format) && fault == KeyNotString
    case InValue(k, key, inner) =>
      && L.Holds(buf, pos, LengthSource(k) + key) && StrLength(k, |key|)
      && BrokenAt(buf, pos + |LengthSource(k) + key|, depth, inner, fault)
  }

  predicate EntriesBrokenAt(buf: bytes, pos: nat, depth: nat, count: nat, entries: seq<Entry>, m: InMap, fault: Fault) {
    && |entries| < count && WellEntries(entries) && depth + EntryLevels(entries) <= DEPTH_CAP
    && L.Holds(buf, pos, EntriesSource(entries))
    && TailBrokenAt(buf, pos + |EntriesSource(entries)|, depth, m, fault)
  }

  lemma Together(buf: bytes, pos: nat, a: bytes, b: bytes)
    requires L.Holds(buf, pos, a) && L.Holds(buf, pos + |a|, b)
    ensures L.Holds(buf, pos, a + b)
  {
    assert buf[pos..pos + |a| + |b|] == buf[pos..pos + |a|] + buf[pos + |a|..pos + |a| + |b|];
  }

  lemma Slice(buf: bytes, pos: nat, next: nat)
    requires pos <= next <= |buf|
    ensures L.Holds(buf, pos, buf[pos..next])
  {
  }

  lemma HeadBroken(buf: bytes, pos: nat, depth: nat) returns (b: Broken)
    requires pos < |buf| && HeadAt(buf, pos, depth).Malformed? && depth <= DEPTH_CAP
    ensures BrokenAt(buf, pos, depth, b, HeadAt(buf, pos, depth).fault)
  {
    hide Number, Payload;
    assert buf[pos..pos + 1] == [buf[pos]];
    match FormatOf(buf[pos])
    case ShortContainer(_, count) =>
      b := OneTooDeep(Length(buf[pos], []), count);
    case LongContainer(_, width) =>
      var digits := DigitsFound(buf, pos, width);
      b := OneTooDeep(Length(buf[pos], digits), Number(digits));
    case Unknown =>
      b := BadFormat(buf[pos]);
    case _ =>
  }

  lemma OpenedRoom(buf: bytes, pos: nat, depth: nat)
    requires pos <= |buf| && HeadAt(buf, pos, depth).Ok? && HeadAt(buf, pos, depth).value.Open?
    ensures pos < |buf| && depth < DEPTH_CAP
    ensures HeadAt(buf, pos, depth).value.count <= |buf| - HeadAt(buf, pos, depth).next
  {
  }

  lemma NothingToRead(buf: bytes, depth: nat)
    ensures HeadAt(buf, |buf|, depth) == Incomplete && KeyAt(buf, |buf|) == Incomplete
  {
  }

  lemma ArrayBroken(buf: bytes, pos: nat, depth: nat, l: Length, count: nat, done: seq<Code>, inner: Broken,
      fault: Fault)
    requires ArrLength(l, count) && L.Holds(buf, pos, LengthSource(l)) && count <= |buf| - pos - |LengthSource(l)|
    requires ItemsBrokenAt(buf, pos + |LengthSource(l)|, depth + 1, count, done, inner, fault)
    ensures BrokenAt(buf, pos, depth, InItem(l, count, done, inner), fault)
  {
    hide ArrLength, L.Holds, LengthSource, ItemsSource, Begun, Breaks;
    var start := pos + |LengthSource(l)|;
    RoomLeft(buf, start + |ItemsSource(done)|, Begun(inner));
    Together(buf, start, ItemsSource(done), Begun(inner));
    Together(buf, pos, LengthSource(l), ItemsSource(done) + Begun(inner));
    InItemBreaks(l, count, done, inner, depth, |buf| - start - |ItemsSource(done)| - |Begun(inner)|);
  }

  lemma InItemBreaks(l: Length, count: nat, done: seq<Code>, inner: Broken, depth: nat, after: nat)
    requires ArrLength(l, count) && |done| < count <= |ItemsSource(done)| + |Begun(inner)| + after
    requires WellItems(done) && depth + 1 + ItemLevels(done) <= DEPTH_CAP && Breaks(inner, depth + 1, after)
    ensures Breaks(InItem(l, count, done, inner), depth, after)
    ensures Begun(InItem(l, count, done, inner)) == LengthSource(l) + (ItemsSource(done) + Begun(inner))
    ensures FaultOf(InItem(l, count, done, inner)) == FaultOf(inner)
  {
    hide ArrLength, LengthSource, ItemsSource, WellItems;
  }

  lemma KeyBroken(buf: bytes, pos: nat, depth: nat, l: Length, count: nat, entries: seq<Entry>, m: InMap, fault: Fault)
      returns (b: Broken)
    requires MapLength(l, count) && L.Holds(buf, pos, LengthSource(l)) && count <= |buf| - pos - |LengthSource(l)|
    requires EntriesBrokenAt(buf, pos + |LengthSource(l)|, depth + 1, count, entries, m, fault) && m.InKey?
    ensures BrokenAt(buf, pos, depth, b, fault)
  {
    hide MapLength, L.Holds, LengthSource, EntriesSource, WellEntries, EntryLevels, StrFormat;
    var start := pos + |LengthSource(l)|;
    RoomLeft(buf, start + |EntriesSource(entries)|, [m.format]);
    Together(buf, start, EntriesSource(entries), [m.format]);
    Together(buf, pos, LengthSource(l), EntriesSource(entries) + [m.format]);
    b := BadKey(l, count, entries, m.format);
  }

  lemma InEntryBreaks(b: Broken, depth: nat, after: nat)
    requires b.InEntry? && MapLength(b.length, b.count) && WellEntries(b.entries)
    requires |b.entries| < b.count
    requires b.count <= |EntriesSource(b.entries)| + |LengthSource(b.keyLength)| + |b.key| + |Begun(b.inner)| + after
    requires depth + 1 + EntryLevels(b.entries) <= DEPTH_CAP && StrLength(b.keyLength, |b.key|)
    requires Breaks(b.inner, depth + 1, after)
    ensures Breaks(b, depth, after) && FaultOf(b) == FaultOf(b.inner)
    ensures Begun(b)
         == LengthSource(b.length) + (EntriesSource(b.entries) + (LengthSource(b.keyLength) + b.key + Begun(b.inner)))
  {
    hide MapLength, LengthSource, EntriesSource, WellEntries, StrLength;
  }

  lemma EntryBroken(buf: bytes, pos: nat, depth: nat, l: Length, count: nat, entries: seq<Entry>, m: InMap,
      fault: Fault) returns (b: Broken)
    requires MapLength(l, count) && L.Holds(buf, pos, LengthSource(l)) && count <= |buf| - pos - |LengthSource(l)|
    requires EntriesBrokenAt(buf, pos + |LengthSource(l)|, depth + 1, count, entries, m, fault) && m.InValue?
    ensures BrokenAt(buf, pos, depth, b, fault)
  {
    hide MapLength, L.Holds, LengthSource, EntriesSource, WellEntries, EntryLevels, StrLength, Breaks, Begun, FaultOf;
    var start := pos + |LengthSource(l)|;
    var mid := start + |EntriesSource(entries)|;
    var k := LengthSource(m.keyLength) + m.key;
    RoomLeft(buf, mid + |k|, Begun(m.inner));
    Together(buf, mid, k, Begun(m.inner));
    Together(buf, start, EntriesSource(entries), k + Begun(m.inner));
    Together(buf, pos, LengthSource(l), EntriesSource(entries) + (k + Begun(m.inner)));
    b := InEntry(l, count, entries, m.keyLength, m.key, m.inner);
    InEntryBreaks(b, depth, |buf| - mid - |k| - |Begun(m.inner)|);
  }

  lemma {:induction false} BrokenFound(buf: bytes, pos: nat, depth: nat) returns (b: Broken)
    requires pos <= |buf| && DecValue(buf, pos, depth).Malformed? && depth <= DEPTH_CAP
    ensures BrokenAt(buf, pos, depth, b, DecValue(buf, pos, depth).fault)
    decreases |buf| - pos, 0, 0
  {
    hide HeadAt, ArrLength, MapLength, DecItems, DecPairs, LengthSource, BrokenAt, ItemsBrokenAt, EntriesBrokenAt,
      L.Holds;
    NothingToRead(buf, depth);
    match HeadAt(buf, pos, depth)
    case Malformed(_) =>
      b := HeadBroken(buf, pos, depth);
    case Ok(Open(Array, count), next) =>
      OpenedRoom(buf, pos, depth);
      var l := LengthFound(buf, pos, depth);
      Slice(buf, pos, next);
      var done, inner := ItemsBroken(buf, next, depth + 1, count);
      b := InItem(l, count, done, inner);
      ArrayBroken(buf, pos, depth, l, count, done, inner, DecValue(buf, pos, depth).fault);
    case Ok(Open(Map, count), next) =>
      OpenedRoom(buf, pos, depth);
      var l := LengthFound(buf, pos, depth);
      Slice(buf, pos, next);
      var entries, m := EntriesBroken(buf, next, depth + 1, count);
      if m.InKey? {
        b := KeyBroken(buf, pos, depth, l, count, entries, m, DecValue(buf, pos, depth).fault);
      } else {
        b := EntryBroken(buf, pos, depth, l, count, entries, m, DecValue(buf, pos, depth).fault);
      }
    case _ =>
  }

  lemma {:induction false} ItemsBroken(buf: bytes, pos: nat, depth: nat, count: nat)
      returns (done: seq<Code>, inner: Broken)
    requires pos <= |buf| && DecItems(buf, pos, depth, count).Malformed? && depth <= DEPTH_CAP
    ensures ItemsBrokenAt(buf, pos, depth, count, done, inner, DecItems(buf, pos, depth, count).fault)
    decreases |buf| - pos, 1, count
  {
    hide DecValue, BrokenAt, ItemsBrokenAt;
    match DecValue(buf, pos, depth)
    case Malformed(_) =>
      inner := BrokenFound(buf, pos, depth);
      done := [];
      NoItems(buf, pos, depth, count, inner, DecItems(buf, pos, depth, count).fault);
    case Ok(_, next) =>
      var first := ValueFound(buf, pos, depth);
      var more;
      more, inner := ItemsBroken(buf, next, depth, count - 1);
      done := [first] + more;
      OneMoreItem(buf, pos, next, depth, count, first, more, inner, DecItems(buf, pos, depth, count).fault);
    case _ =>
  }

  lemma NoItems(buf: bytes, pos: nat, depth: nat, count: nat, inner: Broken, fault: Fault)
    requires BrokenAt(buf, pos, depth, inner, fault) && count > 0 && depth <= DEPTH_CAP
    ensures ItemsBrokenAt(buf, pos, depth, count, [], inner, fault)
  {
    hide Breaks, Begun, FaultOf;
  }

  lemma OneMoreItem(buf: bytes, pos: nat, next: nat, depth: nat, count: nat, first: Code, more: seq<Code>,
      inner: Broken, fault: Fault)
    requires pos <= next <= |buf| && count > 0 && Well(first) && depth + Levels(first) <= DEPTH_CAP
    requires Source(first) == buf[pos..next] && ItemsBrokenAt(buf, next, depth, count - 1, more, inner, fault)
    ensures ItemsBrokenAt(buf, pos, depth, count, [first] + more, inner, fault)
  {
    hide Well, Source, Levels, BrokenAt, L.Holds;
    var done := [first] + more;
    assert done[0] == first && done[1..] == more;
    Slice(buf, pos, next);
    Together(buf, pos, Source(first), ItemsSource(more));
  }

  lemma {:induction false} TailFound(buf: bytes, pos: nat, depth: nat, count: nat) returns (m: InMap)
    requires pos <= |buf| && count > 0 && depth <= DEPTH_CAP && DecPairs(buf, pos, depth, count).Malformed?
    requires KeyAt(buf, pos).Malformed? || (KeyAt(buf, pos).Ok?
        && DecValue(buf, KeyAt(buf, pos).next, depth).Malformed?)
    ensures TailBrokenAt(buf, pos, depth, m, DecPairs(buf, pos, depth, count).fault)
    decreases |buf| - pos, 1, 0
  {
    hide DecValue, BrokenAt, StrLength, KeyAt, L.Holds, LengthSource;
    if KeyAt(buf, pos).Malformed? {
      m := KeyTail(buf, pos, depth, count);
    } else {
      var mid, key := KeyAt(buf, pos).next, KeyAt(buf, pos).value;
      assert DecPairs(buf, pos, depth, count) == DecKeyed(buf, mid, depth, key, count);
      NothingToRead(buf, depth);
      var l := KeyFound(buf, pos);
      Slice(buf, pos, mid);
      var inner := BrokenFound(buf, mid, depth);
      m := InValue(l, key, inner);
    }
  }

  lemma KeyTail(buf: bytes, pos: nat, depth: nat, count: nat) returns (m: InMap)
    requires pos <= |buf| && count > 0 && KeyAt(buf, pos).Malformed?
    ensures TailBrokenAt(buf, pos, depth, m, KeyNotString)
    ensures DecPairs(buf, pos, depth, count) == Malformed(KeyNotString)
  {
    hide BrokenAt, StrLength;
    m := InKey(buf[pos]);
    assert buf[pos..pos + 1] == [buf[pos]];
  }

  lemma {:induction false} EntriesBroken(buf: bytes, pos: nat, depth: nat, count: nat)
      returns (entries: seq<Entry>, m: InMap)
    requires pos <= |buf| && DecPairs(buf, pos, depth, count).Malformed? && depth <= DEPTH_CAP
    ensures EntriesBrokenAt(buf, pos, depth, count, entries, m, DecPairs(buf, pos, depth, count).fault)
    decreases |buf| - pos, 2, count
  {
    hide DecValue, KeyAt, TailBrokenAt, EntriesBrokenAt, StrLength;
    if KeyAt(buf, pos).Ok? && DecValue(buf, KeyAt(buf, pos).next, depth).Ok? {
      var mid, key := KeyAt(buf, pos).next, KeyAt(buf, pos).value;
      assert DecPairs(buf, pos, depth, count) == DecKeyed(buf, mid, depth, key, count);
      var next := DecValue(buf, mid, depth).next;
      NothingToRead(buf, depth);
      var l := KeyFound(buf, pos);
      var value := ValueFound(buf, mid, depth);
      var more;
      more, m := EntriesBroken(buf, next, depth, count - 1);
      var e := Entry(l, key, value);
      entries := [e] + more;
      OneMoreEntry(buf, pos, mid, next, depth, count, e, more, m, DecPairs(buf, pos, depth, count).fault);
    } else {
      PairsFailed(buf, pos, depth, count);
      m := TailFound(buf, pos, depth, count);
      entries := [];
      NoEntries(buf, pos, depth, count, m, DecPairs(buf, pos, depth, count).fault);
    }
  }

  lemma NoEntries(buf: bytes, pos: nat, depth: nat, count: nat, m: InMap, fault: Fault)
    requires TailBrokenAt(buf, pos, depth, m, fault) && count > 0 && depth <= DEPTH_CAP && pos <= |buf|
    ensures EntriesBrokenAt(buf, pos, depth, count, [], m, fault)
  {
    hide TailBrokenAt;
  }

  lemma OneMoreEntry(buf: bytes, pos: nat, mid: nat, next: nat, depth: nat, count: nat, e: Entry, more: seq<Entry>,
      m: InMap, fault: Fault)
    requires pos <= mid <= next <= |buf| && count > 0 && StrLength(e.length, |e.key|)
    requires Well(e.value) && depth + Levels(e.value) <= DEPTH_CAP
    requires LengthSource(e.length) + e.key == buf[pos..mid] && Source(e.value) == buf[mid..next]
    requires EntriesBrokenAt(buf, next, depth, count - 1, more, m, fault)
    ensures EntriesBrokenAt(buf, pos, depth, count, [e] + more, m, fault)
  {
    hide Well, Source, Levels, TailBrokenAt, L.Holds, LengthSource, StrLength;
    var entries := [e] + more;
    assert entries[0] == e && entries[1..] == more;
    Slice(buf, pos, mid);
    Slice(buf, mid, next);
    Together(buf, pos, LengthSource(e.length) + e.key, Source(e.value));
    Together(buf, pos, LengthSource(e.length) + e.key + Source(e.value), EntriesSource(more));
  }

  lemma PairsFailed(buf: bytes, pos: nat, depth: nat, count: nat)
    requires pos <= |buf| && DecPairs(buf, pos, depth, count).Malformed?
    requires !(KeyAt(buf, pos).Ok? && DecValue(buf, KeyAt(buf, pos).next, depth).Ok?)
    ensures count > 0
    ensures KeyAt(buf, pos).Malformed? || (KeyAt(buf, pos).Ok? && DecValue(buf, KeyAt(buf, pos).next, depth).Malformed?)
  {
    hide KeyAt, DecValue;
  }

  /** The first bytes are the beginning of a code that breaks with this fault. */
  ghost predicate BreaksOff(b: Broken, buf: bytes, fault: Fault) {
    && |Begun(b)| <= |buf| && Begun(b) == buf[..|Begun(b)|]
    && Breaks(b, 0, |buf| - |Begun(b)|) && FaultOf(b) == fault
  }

  /**
   A buffer is refused exactly when it begins with the beginning of a code that breaks, and with that fault.  With
   `DecodesIff` this leaves every other buffer incomplete.
   */
  lemma RefusedIff(buf: bytes, fault: Fault)
    ensures Decode(buf) == Malformed(fault) <==> exists b :: BreaksOff(b, buf, fault)
  {
    hide DecValue, Breaks, Begun, FaultOf;
    if Decode(buf) == Malformed(fault) {
      var b := BrokenFound(buf, 0, 0);
      assert buf[0..|Begun(b)|] == buf[..|Begun(b)|];
      assert BreaksOff(b, buf, fault);
    }
    if b :| BreaksOff(b, buf, fault) {
      assert buf[0..|Begun(b)|] == buf[..|Begun(b)|];
      BrokenReads(buf, 0, 0, b, |buf| - |Begun(b)|);
    }
  }
}
