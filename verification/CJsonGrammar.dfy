/**
 JSON text as anyone may write it: any blanks between tokens, any spelling of a string's characters and of a number.
 What a text means is said here without the parser.
 */
module CJsonGrammar {
  import opened Bytes
  import opened CJsonSpec

  // ----- strings -----

  /** One character of a string literal: a byte as it stands, or an escape. */
  datatype Char =
    | Plain(b: byte)
    | Letter(letter: byte)
    | Unit(hex: bytes)
    | Pair(high: bytes, low: bytes)

  /** The value of a hex digit. */
  function Digit(b: byte): Option<nat> {
    if '0' as int <= b <= '9' as int then Some(b - '0' as int)
    else if 'a' as int <= b <= 'f' as int then Some(b - 'a' as int + 10)
    else if 'A' as int <= b <= 'F' as int then Some(b - 'A' as int + 10)
    else None
  }

  predicate IsHex(s: bytes) { |s| == 4 && forall i :: 0 <= i < 4 ==> Digit(s[i]).Some? }

  function Code(s: bytes): (c: nat)
    requires IsHex(s)
    ensures c <= 0xffff
  {
    ((Digit(s[0]).value * 16 + Digit(s[1]).value) * 16 + Digit(s[2]).value) * 16 + Digit(s[3]).value
  }

  /** The byte that a two-character escape stands for. */
  function Named(letter: byte): Option<byte> {
    if letter == '"' as int || letter == '\\' as int || letter == '/' as int then Some(letter)
    else if letter == 'b' as int then Some(8)
    else if letter == 't' as int then Some(9)
    else if letter == 'n' as int then Some(10)
    else if letter == 'f' as int then Some(12)
    else if letter == 'r' as int then Some(13)
    else None
  }

  predicate WellChar(c: Char) {
    match c
    case Plain(b) => b != '"' as int && b != '\\' as int
    case Letter(l) => Named(l).Some?
    case Unit(hex) => IsHex(hex) && !(0xd800 <= Code(hex) <= 0xdfff)
    case Pair(high, low) => IsHex(high) && IsHex(low) && 0xd800 <= Code(high) <= 0xdbff && 0xdc00 <= Code(low) <= 0xdfff
  }

  function SpellChar(c: Char): bytes {
    match c
    case Plain(b) => [b]
    case Letter(l) => [BACKSLASH, l]
    case Unit(hex) => [BACKSLASH, 'u' as int] + hex
    case Pair(high, low) => [BACKSLASH, 'u' as int] + high + [BACKSLASH, 'u' as int] + low
  }

  /** What the character stands for; code points in UTF-8. */
  function CharBytes(c: Char): bytes
    requires WellChar(c)
  {
    match c
    case Plain(b) => [b]
    case Letter(l) => [Named(l).value]
    case Unit(hex) => Utf8(Code(hex))
    case Pair(high, low) => Utf8(0x10000 + (Code(high) - 0xd800) * 0x400 + (Code(low) - 0xdc00))
  }

  function SpellChars(cs: seq<Char>): bytes {
    if cs == [] then [] else SpellChar(cs[0]) + SpellChars(cs[1..])
  }

  function Meaning(cs: seq<Char>): bytes
    requires forall c :: c in cs ==> WellChar(c)
  {
    if cs == [] then [] else CharBytes(cs[0]) + Meaning(cs[1..])
  }

  predicate WellString(cs: seq<Char>) { forall c :: c in cs ==> WellChar(c) }

  function SpellString(cs: seq<Char>): bytes { [QUOTE] + (SpellChars(cs) + [QUOTE]) }

  /** A C string: the text up to its first NUL. */
  function StringOf(cs: seq<Char>): bytes
    requires WellString(cs)
  {
    var s := Meaning(cs);
    s[..Find(s, NUL)]
  }

  // ----- numbers -----

  /** A decimal number; `frac` and `exp` are None where there is no point and no exponent. */
  datatype Num = Num(minus: bool, whole: bytes, frac: Option<bytes>, exp: Option<Exponent>)

  datatype Exponent = Exponent(marker: byte, sign: bytes, digits: bytes)

  predicate Digits(s: bytes) { forall i :: 0 <= i < |s| ==> '0' as int <= s[i] <= '9' as int }

  function SpellExponent(e: Exponent): bytes { [e.marker] + (e.sign + e.digits) }

  function SpellNum(n: Num): bytes {
    (if n.minus then [MINUS] else []) + (n.whole
    + ((match n.frac case None => [] case Some(d) => ['.' as int] + d)
    + (match n.exp case None => [] case Some(e) => SpellExponent(e))))
  }

  /** At least one digit in front of the exponent, and the first byte a digit or the sign; at most 63 bytes. */
  predicate WellNum(n: Num) {
    && Digits(n.whole) && (n.frac.Some? ==> Digits(n.frac.value))
    && (n.whole != [] || (n.minus && n.frac.Some? && n.frac.value != []))
    && (n.exp.Some? ==>
          && (n.exp.value.marker == 'e' as int || n.exp.value.marker == 'E' as int)
          && (n.exp.value.sign == [] || n.exp.value.sign == ['+' as int] || n.exp.value.sign == ['-' as int])
          && n.exp.value.digits != [] && Digits(n.exp.value.digits))
    && |SpellNum(n)| <= 63
  }

  /** The number that digits write, the last one first. */
  function Natural(s: bytes): nat
    requires Digits(s)
  {
    if s == [] then 0 else Natural(s[..|s| - 1]) * 10 + (s[|s| - 1] - '0' as int)
  }

  /** A whole number of 32 bits, or the text. */
  function NumOf(n: Num): Json
    requires WellNum(n)
  {
    var i := if n.minus then -(Natural(n.whole) as int) else Natural(n.whole);
    if n.frac.None? && n.exp.None? && -0x8000_0000 <= i <= 0x7fff_ffff then Integer(i) else Real(SpellNum(n))
  }

  // ----- values -----

  datatype Value =
    | Word(v: Json)
    | Number(n: Num)
    | Text(cs: seq<Char>)
    | List(open: bytes, items: seq<Item>)
    | Record(open: bytes, entries: seq<Entry>)

  /** A value with the blanks on both sides of it. */
  datatype Item = Item(before: bytes, value: Value, after: bytes)

  datatype Entry =
    Entry(before: bytes, key: seq<Char>, beforeColon: bytes, afterColon: bytes, value: Value, after: bytes)

  /** What may stand between tokens: any bytes up to the blank. */
  predicate Blank(s: bytes) { forall i :: 0 <= i < |s| ==> s[i] <= 32 }

  predicate Well(w: Value)
    decreases w, 1
  {
    match w
    case Word(v) => v == Null || v == False || v == True
    case Number(n) => WellNum(n)
    case Text(cs) => WellString(cs)
    case List(open, items) => Blank(open) && (items != [] ==> open == []) && WellItems(items)
    case Record(open, entries) => Blank(open) && (entries != [] ==> open == []) && WellEntries(entries)
  }

  predicate WellItems(items: seq<Item>)
    decreases items, 0
  {
    items == [] || (WellItem(items[0]) && WellItems(items[1..]))
  }

  predicate WellItem(item: Item)
    decreases item, 2
  {
    Blank(item.before) && Well(item.value) && Blank(item.after)
  }

  predicate WellEntries(entries: seq<Entry>)
    decreases entries, 0
  {
    entries == [] || (WellEntry(entries[0]) && WellEntries(entries[1..]))
  }

  predicate WellEntry(e: Entry)
    decreases e, 2
  {
    && Blank(e.before) && WellString(e.key) && Blank(e.beforeColon) && Blank(e.afterColon) && Well(e.value)
    && Blank(e.after)
  }

  function WordText(v: Json): bytes {
    if v == Null then Ascii("null") else if v == False then Ascii("false") else Ascii("true")
  }

  function Spell(w: Value): bytes
    decreases w, 1
  {
    match w
    case Word(v) => WordText(v)
    case Number(n) => SpellNum(n)
    case Text(cs) => SpellString(cs)
    case List(open, items) => [OPEN_ARRAY] + (open + (SpellItems(items) + [CLOSE_ARRAY]))
    case Record(open, entries) => [OPEN_OBJECT] + (open + (SpellEntries(entries) + [CLOSE_OBJECT]))
  }

  /** Items with commas between them. */
  function SpellItems(items: seq<Item>): bytes
    decreases items, 0
  {
    if items == [] then []
    else SpellItem(items[0]) + if |items| == 1 then [] else [COMMA] + SpellItems(items[1..])
  }

  function SpellItem(item: Item): bytes
    decreases item, 2
  {
    item.before + (Spell(item.value) + item.after)
  }

  function SpellEntries(entries: seq<Entry>): bytes
    decreases entries, 0
  {
    if entries == [] then []
    else SpellEntry(entries[0]) + if |entries| == 1 then [] else [COMMA] + SpellEntries(entries[1..])
  }

  function SpellEntry(e: Entry): bytes
    decreases e, 2
  {
    e.before + (SpellString(e.key) + (e.beforeColon + ([COLON] + (e.afterColon + (Spell(e.value) + e.after)))))
  }

  /** The tree that the text writes. */
  function Tree(w: Value): Json
    requires Well(w)
    decreases w, 1
  {
    match w
    case Word(v) => v
    case Number(n) => NumOf(n)
    case Text(cs) => String(StringOf(cs))
    case List(_, items) => Array(Trees(items))
    case Record(_, entries) => Object(Members(entries))
  }

  function Trees(items: seq<Item>): seq<Json>
    requires WellItems(items)
    decreases items, 0
  {
    if items == [] then [] else [ItemTree(items[0])] + Trees(items[1..])
  }

  function ItemTree(item: Item): Json
    requires WellItem(item)
    decreases item, 2
  {
    Tree(item.value)
  }

  function Members(entries: seq<Entry>): seq<Member>
    requires WellEntries(entries)
    decreases entries, 0
  {
    if entries == [] then [] else [EntryMember(entries[0])] + Members(entries[1..])
  }

  function EntryMember(e: Entry): Member
    requires WellEntry(e)
    decreases e, 2
  {
    Member(StringOf(e.key), Tree(e.value))
  }

  function Max(a: nat, b: nat): nat { if a > b then a else b }

  /** How many brackets are open at the deepest point. */
  function Levels(w: Value): nat
    decreases w, 1
  {
    match w
    case List(_, items) => 1 + ItemLevels(items)
    case Record(_, entries) => 1 + EntryLevels(entries)
    case _ => 0
  }

  function ItemLevels(items: seq<Item>): nat
    decreases items, 0
  {
    if items == [] then 0 else Max(Levels(items[0].value), ItemLevels(items[1..]))
  }

  function EntryLevels(entries: seq<Entry>): nat
    decreases entries, 0
  {
    if entries == [] then 0 else Max(Levels(entries[0].value), EntryLevels(entries[1..]))
  }

  // ----- documents -----

  /** A value with blanks around it, perhaps a byte-order mark in front, and perhaps a NUL and anything behind. */
  datatype Document = Document(mark: bool, before: bytes, value: Value, after: bytes, tail: bytes)

  predicate SpaceOnly(s: bytes) {
    forall i :: 0 <= i < |s| ==>
      s[i] == ' ' as int || s[i] == '\t' as int || s[i] == '\r' as int || s[i] == '\n' as int
  }

  predicate WellDocument(d: Document) {
    && Blank(d.before) && Well(d.value) && Levels(d.value) <= 64
    && SpaceOnly(d.after) && (d.tail == [] || d.tail[0] == NUL)
    && (d.mark ==> |SpellDocument(d)| > 4)
  }

  function SpellDocument(d: Document): bytes {
    (if d.mark then [0xef, 0xbb, 0xbf] else []) + (d.before + (Spell(d.value) + (d.after + d.tail)))
  }

  /** The document is this text, and writes this tree. */
  predicate Writes(d: Document, doc: bytes, v: Json) {
    WellDocument(d) && SpellDocument(d) == doc && Tree(d.value) == v
  }

  /** From `i` on, whatever is escaped by \u is four hex digits. */
  predicate CleanEscapes(doc: bytes, i: nat)
    decreases |doc| - i
  {
    i >= |doc|
    || if doc[i] == BACKSLASH then
         && (i + 1 < |doc| && doc[i + 1] == 'u' as int ==> i + 6 <= |doc| && IsHex(doc[i + 2..i + 6]))
         && CleanEscapes(doc, i + 2)
       else CleanEscapes(doc, i + 1)
  }
}
