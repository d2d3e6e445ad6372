/**
 The JSON reader and writer of src/cjson/cJSON.c as recursive functions over a text and an offset.
 A string value is a C string: no NUL byte.  A number that is no 32-bit integer is a Real with its text: the token it
 was read from, or, in a value to be printed, the text that print_number writes for it.
 */
module CJsonSpec {
  import opened Bytes

  /** CJSON_NESTING_LIMIT, as the build sets it. */
  const NESTING_LIMIT := 64

  datatype Json =
    | Null
    | False
    | True
    | Integer(i: int)
    | Real(text: bytes)
    | String(s: bytes)
    | Array(items: seq<Json>)
    | Object(members: seq<Member>)

  datatype Member = Member(key: bytes, value: Json)

  const QUOTE: byte := 34
  const BACKSLASH: byte := 92
  const COMMA: byte := 44
  const COLON: byte := 58
  const OPEN_ARRAY: byte := 91
  const CLOSE_ARRAY: byte := 93
  const OPEN_OBJECT: byte := 123
  const CLOSE_OBJECT: byte := 125
  const TAB: byte := 9
  const MINUS: byte := 45

  const TEXT_NULL: bytes := [110, 117, 108, 108]
  const TEXT_TRUE: bytes := [116, 114, 117, 101]
  const TEXT_FALSE: bytes := [102, 97, 108, 115, 101]

  // ----- strings -----

  /** The letter of a two-character escape, if the byte has one. */
  function EscapeLetter(b: byte): Option<byte> {
    match b
    case 34 => Some(34)
    case 92 => Some(92)
    case 8 => Some(98)
    case 12 => Some(102)
    case 10 => Some(110)
    case 13 => Some(114)
    case 9 => Some(116)
    case _ => None
  }

  function HexDigit(n: nat): byte
    requires n < 16
  {
    if n < 10 then 48 + n else 87 + n
  }

  function EscapeByte(b: byte): bytes {
    if EscapeLetter(b).Some? then [BACKSLASH, EscapeLetter(b).value]
    else if b < 32 then [BACKSLASH, 117, 48, 48, HexDigit(b / 16), HexDigit(b % 16)]
    else [b]
  }

  function Escape(s: bytes): bytes {
    if s == [] then [] else EscapeByte(s[0]) + Escape(s[1..])
  }

  function PrintString(s: bytes): bytes {
    [QUOTE] + (Escape(s) + [QUOTE])
  }

  /** Where the string that starts at `i` is closed: a quote that no backslash protects. */
  function CloseQuote(buf: bytes, i: nat): (r: Option<nat>)
    ensures r.Some? ==> i <= r.value < |buf| && buf[r.value] == QUOTE
    decreases |buf| - i
  {
    if i >= |buf| then None
    else if buf[i] == QUOTE then Some(i)
    else if buf[i] == BACKSLASH then (if i + 1 >= |buf| then None else CloseQuote(buf, i + 2))
    else CloseQuote(buf, i + 1)
  }

  function HexValue(b: byte): Option<nat> {
    if 48 <= b <= 57 then Some(b - 48)
    else if 65 <= b <= 70 then Some(b - 55)
    else if 97 <= b <= 102 then Some(b - 87)
    else None
  }

  /** Four hex digits; anything else counts as zero. */
  function Hex4(buf: bytes, i: nat): (h: nat)
    requires i + 4 <= |buf|
    ensures h <= 0xffff
  {
    var a, b, c, d := HexValue(buf[i]), HexValue(buf[i + 1]), HexValue(buf[i + 2]), HexValue(buf[i + 3]);
    if a.Some? && b.Some? && c.Some? && d.Some?
    then 4096 * a.value + 256 * b.value + 16 * c.value + d.value else 0
  }

  /** RFC 3629 section 3. */
  function Utf8(c: nat): (b: bytes)
    requires c <= 0x10ffff
    ensures 1 <= |b| <= 4
  {
    if c < 0x80 then [c]
    else if c < 0x800 then [0xc0 + c / 64, 0x80 + c % 64]
    else if c < 0x10000 then [0xe0 + c / 4096, 0x80 + (c / 64) % 64, 0x80 + c % 64]
    else [0xf0 + c / 262144, 0x80 + (c / 4096) % 64, 0x80 + (c / 64) % 64, 0x80 + c % 64]
  }

  predicate HighSurrogate(c: nat) { 0xd800 <= c <= 0xdbff }
  predicate LowSurrogate(c: nat) { 0xdc00 <= c <= 0xdfff }

  datatype Piece = Piece(out: bytes, used: nat)

  /** The \uXXXX or \uXXXX\uXXXX at `i`, not looking past `end`: its UTF-8 bytes and its length. */
  function Utf16Literal(buf: bytes, i: nat, end: nat): (r: Option<Piece>)
    requires i < end <= |buf|
    ensures r.Some? ==> i + r.value.used <= end && 2 * |r.value.out| <= r.value.used
    ensures r.Some? ==> r.value.used == 6 || r.value.used == 12
  {
    if end - i < 6 then None
    else
      var first := Hex4(buf, i + 2);
      if LowSurrogate(first) then None
      else if HighSurrogate(first) then
        if end - i < 12 || buf[i + 6] != BACKSLASH || buf[i + 7] != 117 then None
        else
          var second := Hex4(buf, i + 8);
          if !LowSurrogate(second) then None
          else Some(Piece(Utf8(0x10000 + (first - 0xd800) * 1024 + (second - 0xdc00)), 12))
      else Some(Piece(Utf8(first), 6))
  }

  /** The escape sequence at `i`. */
  function EscapeAt(buf: bytes, i: nat, end: nat): (r: Option<Piece>)
    requires i < end < |buf| && buf[i] == BACKSLASH
    ensures r.Some? ==> i + r.value.used <= end + 1 && 2 * |r.value.out| <= r.value.used
    ensures r.Some? ==> r.value.used == 2 || r.value.used == 6 || r.value.used == 12
  {
    match buf[i + 1]
    case 98 => Some(Piece([8], 2))
    case 102 => Some(Piece([12], 2))
    case 110 => Some(Piece([10], 2))
    case 114 => Some(Piece([13], 2))
    case 116 => Some(Piece([9], 2))
    case 34 => Some(Piece([34], 2))
    case 92 => Some(Piece([92], 2))
    case 47 => Some(Piece([47], 2))
    case 117 => Utf16Literal(buf, i, end)
    case _ => None
  }

  function Unescape(buf: bytes, i: nat, end: nat): Option<bytes>
    requires end < |buf|
    decreases |buf| - i
  {
    if i >= end then Some([])
    else if buf[i] != BACKSLASH then
      var rest := Unescape(buf, i + 1, end);
      if rest.None? then None else Some([buf[i]] + rest.value)
    else
      var piece := EscapeAt(buf, i, end);
      if piece.None? then None
      else
        var rest := Unescape(buf, i + piece.value.used, end);
        if rest.None? then None else Some(piece.value.out + rest.value)
  }

  /** What a NUL-terminated buffer holding these bytes reads as. */
  function CString(s: bytes): bytes { s[..Find(s, NUL)] }

  datatype Parsed<+T> = Fail | Done(value: T, next: nat)

  function ParseString(buf: bytes, off: nat): (r: Parsed<bytes>)
    ensures r.Done? ==> off + 2 <= r.next <= |buf|
  {
    if off >= |buf| || buf[off] != QUOTE then Fail
    else
      var end := CloseQuote(buf, off + 1);
      if end.None? then Fail
      else
        var out := Unescape(buf, off + 1, end.value);
        if out.None? then Fail else Done(CString(out.value), end.value + 1)
  }

  // ----- numbers -----

  predicate IsDigit(b: byte) { 48 <= b <= 57 }

  predicate IsNumberByte(b: byte) {
    IsDigit(b) || b == 43 || b == MINUS || b == 46 || b == 69 || b == 101
  }

  /** The bytes handed to the number conversion: at most 63, up to the first that no number contains. */
  function NumberRun(buf: bytes, off: nat, room: nat): (n: nat)
    ensures off <= |buf| ==> off + n <= |buf|
    ensures n <= room
    decreases room, buf
  {
    if room == 0 || off >= |buf| || !IsNumberByte(buf[off]) then 0 else 1 + NumberRun(buf, off + 1, room - 1)
  }

  function DigitRun(s: bytes, i: nat): (n: nat)
    ensures i <= |s| ==> i + n <= |s|
    decreases |s| - i
  {
    if i >= |s| || !IsDigit(s[i]) then 0 else 1 + DigitRun(s, i + 1)
  }

  /** How much of `s` the C library reads as a decimal number. */
  function FloatPrefix(s: bytes): (n: nat)
    ensures n <= |s|
  {
    var sign := if s != [] && (s[0] == MINUS || s[0] == 43) then 1 else 0;
    var whole := DigitRun(s, sign);
    var afterWhole := sign + whole;
    var dot := afterWhole < |s| && s[afterWhole] == 46;
    var frac := if dot then DigitRun(s, afterWhole + 1) else 0;
    if whole == 0 && frac == 0 then 0
    else
      var mantissa := if dot then afterWhole + 1 + frac else afterWhole;
      var exponent := ExponentLength(s, mantissa);
      mantissa + exponent
  }

  function ExponentLength(s: bytes, i: nat): (n: nat)
    requires i <= |s|
    ensures i + n <= |s|
  {
    if i >= |s| || (s[i] != 69 && s[i] != 101) then 0
    else
      var sign := if i + 1 < |s| && (s[i + 1] == MINUS || s[i + 1] == 43) then 1 else 0;
      var digits := DigitRun(s, i + 1 + sign);
      if digits == 0 then 0 else 1 + sign + digits
  }

  const INT_MIN := -0x8000_0000
  const INT_MAX := 0x7fff_ffff

  function PrintNat(n: nat): bytes {
    if n < 10 then [48 + n] else PrintNat(n / 10) + [48 + n % 10]
  }

  /** printf's %d. */
  function PrintInt(i: int): bytes {
    if i < 0 then [MINUS] + PrintNat(-i) else PrintNat(i)
  }

  /** The number a string of digits writes; a byte that is no digit spoils it. */
  function NatOf(s: bytes): Option<int> {
    if s == [] then Some(0)
    else
      var front, last := NatOf(s[..|s| - 1]), s[|s| - 1];
      if front.None? || !IsDigit(last) then None else Some(10 * front.value + (last - 48))
  }

  function IntOf(s: bytes): Option<int> {
    if s == [] || s == [MINUS] then None
    else if s[0] == MINUS then
      match NatOf(s[1..])
      case None => None
      case Some(n) => Some(-n)
    else
      NatOf(s)
  }

  /** A number text: a 32-bit integer when it spells one with digits alone, else the text itself. */
  function NumberValue(text: bytes): Json {
    var i := IntOf(text);
    if i.Some? && INT_MIN <= i.value <= INT_MAX then Integer(i.value) else Real(text)
  }

  /** The number that the digits of `s` write. */
  function DigitsValue(s: bytes): nat {
    if s == [] then 0
    else DigitsValue(s[..|s| - 1]) * 10 + if IsDigit(s[|s| - 1]) then s[|s| - 1] - 48 else 0
  }

  function SignedValue(s: bytes): int {
    if s != [] && s[0] == MINUS then 0 - DigitsValue(s[1..]) else DigitsValue(s)
  }

  /** The decimal that a number text spells, but for its sign: a natural number times a power of ten. */
  function Decimal(s: bytes): (nat, int) {
    var sign := if s != [] && (s[0] == MINUS || s[0] == 43) then 1 else 0;
    var afterWhole := sign + DigitRun(s, sign);
    var dot := afterWhole < |s| && s[afterWhole] == 46;
    var frac := if dot then DigitRun(s, afterWhole + 1) else 0;
    var mantissa := if dot then afterWhole + 1 + frac else afterWhole;
    var exponent := ExponentLength(s, mantissa);
    (DigitsValue(s[sign..afterWhole] + s[mantissa - frac..mantissa]),
     (if exponent == 0 then 0 else SignedValue(s[mantissa + 1..mantissa + exponent])) - frac)
  }

  function Pow(b: nat, n: nat): nat
    decreases n, b
  {
    if n == 0 then 1 else b * Pow(b, n - 1)
  }

  /** The number without its sign is at least `num` / `den`. */
  predicate Reaches(s: bytes, num: int, den: nat) {
    var (m, e) := Decimal(s);
    if e >= 0 then m * Pow(10, e) * den >= num else m * den >= num * Pow(10, -e)
  }

  /** A decimal that rounds to an infinite double: from halfway between the largest double and 2 to the 1024 on. */
  predicate Overflows(s: bytes) {
    Reaches(s, Pow(2, 970) * (Pow(2, 54) - 1), 1)
  }

  /** A number whose double, cut to an integer, is 1: from halfway between 1 and the double below it to that below 2. */
  predicate CutsToOne(s: bytes) {
    s != [] && s[0] != MINUS && Reaches(s, Pow(2, 54) - 1, Pow(2, 54)) && !Reaches(s, Pow(2, 54) - 1, Pow(2, 53))
  }

  function ParseNumber(buf: bytes, off: nat): (r: Parsed<Json>)
    requires off <= |buf|
    ensures r.Done? ==> off < r.next <= |buf|
  {
    var run := buf[off..off + NumberRun(buf, off, 63)];
    var n := FloatPrefix(run);
    if n == 0 then Fail else Done(NumberValue(run[..n]), off + n)
  }

  // ----- printing -----

  function Tabs(n: nat): bytes {
    seq(n, _ => TAB)
  }

  /** The text of a value `depth` containers deep; formatted output indents the members of objects. */
  function Print(v: Json, format: bool, depth: nat): bytes
    decreases v, 1
  {
    match v
    case Null => TEXT_NULL
    case False => TEXT_FALSE
    case True => TEXT_TRUE
    case Integer(i) => PrintInt(i)
    case Real(text) => text
    case String(s) => PrintString(s)
    case Array(items) => [OPEN_ARRAY] + (PrintItems(items, format, depth + 1) + [CLOSE_ARRAY])
    case Object(members) =>
      Opening(format) + (PrintMembers(members, format, depth + 1) + (Indent(format, depth) + [CLOSE_OBJECT]))
  }

  function Opening(format: bool): bytes { if format then [OPEN_OBJECT, LF] else [OPEN_OBJECT] }

  function Indent(format: bool, depth: nat): bytes { if format then Tabs(depth) else [] }

  function Colon(format: bool): bytes { if format then [COLON, TAB] else [COLON] }

  function Separator(format: bool): bytes { if format then [COMMA, SPACE] else [COMMA] }

  function PrintItems(items: seq<Json>, format: bool, depth: nat): bytes
    decreases items, 0
  {
    if items == [] then []
    else if |items| == 1 then Print(items[0], format, depth)
    else Print(items[0], format, depth) + (Separator(format) + PrintItems(items[1..], format, depth))
  }

  function KeyText(key: bytes, format: bool, depth: nat): bytes {
    Indent(format, depth) + (PrintString(key) + Colon(format))
  }

  function MemberEnd(last: bool, format: bool): bytes {
    (if last then [] else [COMMA]) + (if format then [LF] else [])
  }

  function PrintMembers(members: seq<Member>, format: bool, depth: nat): bytes
    decreases members, 0
  {
    if members == [] then []
    else
      KeyText(members[0].key, format, depth)
      + (Print(members[0].value, format, depth)
         + (MemberEnd(|members| == 1, format) + PrintMembers(members[1..], format, depth)))
  }

  // ----- parsing -----

  /** Skips blanks; at the end of the text the offset steps back onto the last byte. */
  function SkipBlanks(buf: bytes, off: nat): (n: nat)
    ensures off >= |buf| ==> n == off
    ensures off < |buf| ==> n < |buf| && off <= n
  {
    if off >= |buf| then off
    else
      var n := NonBlank(buf, off);
      if n == |buf| then n - 1 else n
  }

  function NonBlank(buf: bytes, off: nat): (n: nat)
    requires off <= |buf|
    ensures off <= n <= |buf|
    ensures n < |buf| ==> buf[n] > 32
    ensures forall j :: off <= j < n ==> buf[j] <= 32
    decreases |buf| - off
  {
    if off < |buf| && buf[off] <= 32 then NonBlank(buf, off + 1) else off
  }

  predicate TextAt(buf: bytes, off: nat, text: bytes) {
    off + |text| <= |buf| && forall i :: 0 <= i < |text| ==> buf[off + i] == text[i]
  }

  predicate ByteAt(buf: bytes, off: nat, b: byte) {
    off < |buf| && buf[off] == b
  }

  function ParseValue(buf: bytes, off: nat, depth: nat): (r: Parsed<Json>)
    ensures r.Done? ==> off < r.next <= |buf|
    decreases |buf| - off, 2
  {
    if TextAt(buf, off, TEXT_NULL) then Done(Null, off + 4)
    else if TextAt(buf, off, TEXT_FALSE) then Done(False, off + 5)
    else if TextAt(buf, off, TEXT_TRUE) then Done(True, off + 4)
    else if off >= |buf| then Fail
    else if buf[off] == QUOTE then
      match ParseString(buf, off)
      case Fail => Fail
      case Done(s, next) => Done(String(s), next)
    else if buf[off] == MINUS || IsDigit(buf[off]) then ParseNumber(buf, off)
    else if buf[off] == OPEN_ARRAY then ParseArray(buf, off, depth)
    else if buf[off] == OPEN_OBJECT then ParseObject(buf, off, depth)
    else Fail
  }

  function ParseArray(buf: bytes, off: nat, depth: nat): (r: Parsed<Json>)
    requires off < |buf|
    ensures r.Done? ==> off < r.next <= |buf|
    decreases |buf| - off, 1
  {
    var at := SkipBlanks(buf, off + 1);
    if depth >= NESTING_LIMIT then Fail
    else if ByteAt(buf, at, CLOSE_ARRAY) then Done(Array([]), at + 1)
    else if at >= |buf| then Fail
    else match ParseItems(buf, at, depth + 1)
      case Fail => Fail
      case Done(items, end) => if ByteAt(buf, end, CLOSE_ARRAY) then Done(Array(items), end + 1) else Fail
  }

  /** Values separated by commas, blanks around them skipped; the offset is on the first value. */
  function ParseItems(buf: bytes, off: nat, depth: nat): (r: Parsed<seq<Json>>)
    ensures r.Done? ==> off < r.next && |r.value| > 0
    decreases |buf| - off, 3
  {
    match ParseValue(buf, off, depth)
    case Fail => Fail
    case Done(v, next) =>
      var at := SkipBlanks(buf, next);
      if ByteAt(buf, at, COMMA) then
        match ParseItems(buf, SkipBlanks(buf, at + 1), depth)
        case Fail => Fail
        case Done(rest, end) => Done([v] + rest, end)
      else Done([v], at)
  }

  function ParseObject(buf: bytes, off: nat, depth: nat): (r: Parsed<Json>)
    requires off < |buf|
    ensures r.Done? ==> off < r.next <= |buf|
    decreases |buf| - off, 1
  {
    var at := SkipBlanks(buf, off + 1);
    if depth >= NESTING_LIMIT then Fail
    else if ByteAt(buf, at, CLOSE_OBJECT) then Done(Object([]), at + 1)
    else if at >= |buf| then Fail
    else match ParseMembers(buf, at, depth + 1)
      case Fail => Fail
      case Done(members, end) => if ByteAt(buf, end, CLOSE_OBJECT) then Done(Object(members), end + 1) else Fail
  }

  /** Members separated by commas; the offset is on the first key. */
  function ParseMembers(buf: bytes, off: nat, depth: nat): (r: Parsed<seq<Member>>)
    ensures r.Done? ==> off < r.next && |r.value| > 0
    decreases |buf| - off, 3
  {
    match ParseString(buf, off)
    case Fail => Fail
    case Done(key, afterKey) =>
      var colon := SkipBlanks(buf, afterKey);
      if !ByteAt(buf, colon, COLON) then Fail
      else match ParseValue(buf, SkipBlanks(buf, colon + 1), depth)
        case Fail => Fail
        case Done(v, next) =>
          var at := SkipBlanks(buf, next);
          if ByteAt(buf, at, COMMA) then
            if at + 1 >= |buf| then Fail
            else match ParseMembers(buf, SkipBlanks(buf, at + 1), depth)
              case Fail => Fail
              case Done(rest, end) => Done([Member(key, v)] + rest, end)
          else Done([Member(key, v)], at)
  }

  predicate IsBlank(b: byte) { b == SPACE || b == TAB || b == CR || b == LF }

  /** The offset of the first byte of `doc` from `i` on that is no blank. */
  function SkipDocBlanks(doc: bytes, i: nat): (n: nat)
    requires i <= |doc|
    ensures i <= n <= |doc|
    ensures n < |doc| ==> !IsBlank(doc[n])
    decreases |doc| - i
  {
    if i < |doc| && IsBlank(doc[i]) then SkipDocBlanks(doc, i + 1) else i
  }

  /** Where parsing starts: past a byte-order mark, if at least two more bytes follow it, and past blanks. */
  function DocStart(doc: bytes): nat {
    SkipBlanks(doc, if |doc| > 4 && doc[..3] == [0xef, 0xbb, 0xbf] then 3 else 0)
  }

  /** json_parse: one value and nothing after it but blanks, or blanks and a NUL. */
  function ParseDocument(doc: bytes, maxSize: nat): Option<Json> {
    if doc == [] || |doc| > maxSize then None
    else match ParseValue(doc, DocStart(doc), 0)
      case Fail => None
      case Done(v, next) =>
        var end := SkipDocBlanks(doc, next);
        if end < |doc| && doc[end] != NUL then None else Some(v)
  }

  // ----- looking into objects -----

  /** cJSON_GetObjectItemCaseSensitive: the first member with that key. */
  function Lookup(members: seq<Member>, key: bytes): Option<Json> {
    if members == [] then None
    else if members[0].key == key then Some(members[0].value)
    else Lookup(members[1..], key)
  }

  /** json_get_cstr. */
  function GetString(v: Json, key: bytes): Option<bytes> {
    if !v.Object? then None
    else match Lookup(v.members, key)
      case Some(String(s)) => Some(s)
      case _ => None
  }
}
