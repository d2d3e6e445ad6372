/** What printing and parsing JSON text promise each other. */
module CJsonLaws {
  import opened Bytes
  import opened CJsonSpec

  // ----- what can be stored -----

  predicate IsCString(s: bytes) { NUL !in s }

  /** The text of a number that is no 32-bit integer. */
  predicate IsRealText(t: bytes) {
    && 0 < |t| <= 63
    && (t[0] == MINUS || IsDigit(t[0]))
    && AllNumberBytes(t)
    && FloatPrefix(t) == |t|
    && NumberValue(t) == Real(t)
  }

  predicate AllNumberBytes(t: bytes) {
    forall i :: 0 <= i < |t| ==> IsNumberByte(t[i])
  }

  predicate Storable(v: Json) {
    match v
    case Integer(i) => INT_MIN <= i <= INT_MAX
    case Real(text) => IsRealText(text)
    case String(s) => IsCString(s)
    case Array(items) => StorableItems(items)
    case Object(members) => StorableMembers(members)
    case _ => true
  }

  predicate StorableItems(items: seq<Json>) {
    items == [] || (Storable(items[0]) && StorableItems(items[1..]))
  }

  predicate StorableMembers(members: seq<Member>) {
    members == []
    || (IsCString(members[0].key) && Storable(members[0].value) && StorableMembers(members[1..]))
  }

  function Max(a: nat, b: nat): nat { if a < b then b else a }

  /** How many containers are open at the deepest point. */
  function Nesting(v: Json): nat {
    match v
    case Array(items) => 1 + NestingItems(items)
    case Object(members) => 1 + NestingMembers(members)
    case _ => 0
  }

  function NestingItems(items: seq<Json>): nat {
    if items == [] then 0 else Max(Nesting(items[0]), NestingItems(items[1..]))
  }

  function NestingMembers(members: seq<Member>): nat {
    if members == [] then 0 else Max(Nesting(members[0].value), NestingMembers(members[1..]))
  }

  // ----- text positions -----

  lemma TextSplit(buf: bytes, off: nat, a: bytes, b: bytes)
    requires TextAt(buf, off, a + b)
    ensures TextAt(buf, off, a) && TextAt(buf, off + |a|, b)
  {
    forall i | 0 <= i < |b| ensures buf[off + |a| + i] == b[i] {
      assert b[i] == (a + b)[|a| + i];
    }
    forall i | 0 <= i < |a| ensures buf[off + i] == a[i] {
      assert a[i] == (a + b)[i];
    }
  }

  lemma TextByte(buf: bytes, off: nat, t: bytes, i: nat)
    requires TextAt(buf, off, t) && i < |t|
    ensures off + i < |buf| && buf[off + i] == t[i]
  {
    var b := t[i];
  }

  lemma SkipTo(buf: bytes, i: nat, j: nat)
    requires i <= j < |buf| && buf[j] > 32
    requires forall k :: i <= k < j ==> buf[k] <= 32
    ensures SkipBlanks(buf, i) == j
  {
  }

  // ----- strings -----

  lemma {:induction false} CloseQuoteFound(buf: bytes, i: nat, s: bytes)
    requires IsCString(s) && TextAt(buf, i, Escape(s) + [QUOTE])
    ensures CloseQuote(buf, i) == Some(i + |Escape(s)|)
    decreases |s|
  {
    hide TextAt, EscapeByte;
    if s == [] {
      assert Escape(s) + [QUOTE] == [QUOTE];
      TextByte(buf, i, [QUOTE], 0);
    } else {
      var e := EscapeByte(s[0]);
      assert Escape(s) + [QUOTE] == e + (Escape(s[1..]) + [QUOTE]);
      TextSplit(buf, i, e, Escape(s[1..]) + [QUOTE]);
      CloseQuoteFound(buf, i + |e|, s[1..]);
      PastEscape(buf, i, s[0]);
    }
  }

  lemma PastEscape(buf: bytes, i: nat, b: byte)
    requires TextAt(buf, i, EscapeByte(b))
    ensures CloseQuote(buf, i) == CloseQuote(buf, i + |EscapeByte(b)|)
  {
    var e := EscapeByte(b);
    TextByte(buf, i, e, 0);
    if |e| == 6 {
      TextByte(buf, i, e, 1);
      TextByte(buf, i, e, 2);
      TextByte(buf, i, e, 3);
      TextByte(buf, i, e, 4);
      TextByte(buf, i, e, 5);
      assert CloseQuote(buf, i + 2) == CloseQuote(buf, i + 4) == CloseQuote(buf, i + 6);
    } else if |e| == 2 {
      TextByte(buf, i, e, 1);
    }
  }

  lemma HexDigitValue(n: nat)
    requires n < 16
    ensures HexValue(HexDigit(n)) == Some(n)
  {
  }

  /** One printed byte reads back as that byte. */
  lemma EscapeReads(buf: bytes, i: nat, b: byte, end: nat)
    requires b != NUL && TextAt(buf, i, EscapeByte(b)) && i + |EscapeByte(b)| <= end < |buf|
    ensures |EscapeByte(b)| > 0
    ensures |EscapeByte(b)| == 1 ==> buf[i] != BACKSLASH && buf[i] == b
    ensures |EscapeByte(b)| > 1 ==> buf[i] == BACKSLASH && EscapeAt(buf, i, end) == Some(Piece([b], |EscapeByte(b)|))
  {
    var e := EscapeByte(b);
    TextByte(buf, i, e, 0);
    if |e| == 6 {
      TextByte(buf, i, e, 1);
      TextByte(buf, i, e, 2);
      TextByte(buf, i, e, 3);
      TextByte(buf, i, e, 4);
      TextByte(buf, i, e, 5);
      HexDigitValue(b / 16);
      HexDigitValue(b % 16);
      assert Hex4(buf, i + 2) == b;
    } else if |e| == 2 {
      TextByte(buf, i, e, 1);
    }
  }

  /** A piece of the text that reads as one byte, and the rest. */
  lemma UnescapeNext(buf: bytes, i: nat, end: nat, b: byte, used: nat)
    requires i < end < |buf| && used > 0
    requires if used == 1 then buf[i] != BACKSLASH && buf[i] == b
             else buf[i] == BACKSLASH && EscapeAt(buf, i, end) == Some(Piece([b], used))
    ensures Unescape(buf, i, end)
      == match Unescape(buf, i + used, end) { case None => None case Some(rest) => Some([b] + rest) }
  {
    hide EscapeAt;
  }

  lemma UnescapeEnds(buf: bytes, end: nat)
    requires end < |buf|
    ensures Unescape(buf, end, end) == Some([])
  {
  }

  lemma {:induction false} UnescapeInverts(buf: bytes, i: nat, s: bytes, end: nat)
    requires IsCString(s) && TextAt(buf, i, Escape(s)) && end == i + |Escape(s)| < |buf|
    ensures Unescape(buf, i, end) == Some(s)
    decreases |s|
  {
    hide EscapeAt, EscapeByte, Unescape, TextAt;
    if s == [] {
      UnescapeEnds(buf, end);
    } else {
      var e := EscapeByte(s[0]);
      TextSplit(buf, i, e, Escape(s[1..]));
      EscapeReads(buf, i, s[0], end);
      UnescapeInverts(buf, i + |e|, s[1..], end);
      UnescapeNext(buf, i, end, s[0], |e|);
      assert s == [s[0]] + s[1..];
    }
  }

  lemma FindAbsent(s: bytes)
    requires IsCString(s)
    ensures CString(s) == s
  {
  }

  lemma StringReads(buf: bytes, off: nat, s: bytes)
    requires IsCString(s) && TextAt(buf, off, PrintString(s))
    ensures ParseString(buf, off) == Done(s, off + |PrintString(s)|)
  {
    hide TextAt, Escape, CloseQuote, Unescape, CString, IsCString;
    var e := Escape(s);
    TextSplit(buf, off, [QUOTE], e + [QUOTE]);
    TextByte(buf, off, [QUOTE], 0);
    TextSplit(buf, off + 1, e, [QUOTE]);
    CloseQuoteFound(buf, off + 1, s);
    UnescapeInverts(buf, off + 1, s, off + 1 + |e|);
    FindAbsent(s);
  }

  // ----- numbers -----

  lemma {:induction false} NatReads(n: nat)
    ensures NatOf(PrintNat(n)) == Some(n) && |PrintNat(n)| > 0
    ensures forall i :: 0 <= i < |PrintNat(n)| ==> IsDigit(PrintNat(n)[i])
    decreases n
  {
    var t := PrintNat(n);
    if n >= 10 {
      NatReads(n / 10);
      assert t[..|t| - 1] == PrintNat(n / 10);
    } else {
      assert t[..0] == [];
    }
  }

  lemma {:induction false} NatWidth(n: nat, k: nat, bound: nat)
    requires n < bound && k > 0 && bound <= Pow10(k)
    ensures |PrintNat(n)| <= k
    decreases k
  {
    if n >= 10 {
      assert k > 1;
      NatWidth(n / 10, k - 1, Pow10(k - 1));
    }
  }

  function Pow10(k: nat): nat {
    if k == 0 then 1 else 10 * Pow10(k - 1)
  }

  lemma {:induction false} DigitsRun(s: bytes, i: nat)
    requires i <= |s| && forall j :: i <= j < |s| ==> IsDigit(s[j])
    ensures DigitRun(s, i) == |s| - i
    decreases |s| - i
  {
    if i < |s| {
      DigitsRun(s, i + 1);
    }
  }

  lemma IntWidth(n: nat)
    requires n <= 0x8000_0000
    ensures |PrintNat(n)| <= 10
  {
    assert Pow10(10) == 10000000000 by {
      assert Pow10(5) == 100000;
      assert Pow10(10) == 10 * (10 * (10 * (10 * (10 * Pow10(5)))));
    }
    NatWidth(n, 10, Pow10(10));
  }

  lemma IntText(i: int)
    requires INT_MIN <= i <= INT_MAX
    ensures NumberValue(PrintInt(i)) == Integer(i)
    ensures 0 < |PrintInt(i)| <= 63 && AllNumberBytes(PrintInt(i))
    ensures PrintInt(i)[0] == MINUS || IsDigit(PrintInt(i)[0])
    ensures FloatPrefix(PrintInt(i)) == |PrintInt(i)|
  {
    var n := if i < 0 then -i else i;
    var t := PrintInt(i);
    IntWidth(n);
    NatReads(n);
    hide PrintNat, NatOf, ExponentLength;
    if i < 0 {
      assert t[1..] == PrintNat(n);
      DigitsRun(t, 1);
    } else {
      DigitsRun(t, 0);
    }
  }

  /** No byte of a number is at offset `i`. */
  predicate NumberEnds(buf: bytes, i: nat) {
    i >= |buf| || !IsNumberByte(buf[i])
  }

  lemma {:induction false} RunIsText(buf: bytes, off: nat, t: bytes, room: nat)
    requires TextAt(buf, off, t) && AllNumberBytes(t) && |t| <= room && NumberEnds(buf, off + |t|)
    ensures NumberRun(buf, off, room) == |t|
    decreases room
  {
    if t != [] {
      TextByte(buf, off, t, 0);
      assert t == [t[0]] + t[1..];
      TextSplit(buf, off, [t[0]], t[1..]);
      RunIsText(buf, off + 1, t[1..], room - 1);
    }
  }

  lemma NumberReads(buf: bytes, off: nat, t: bytes, depth: nat)
    requires TextAt(buf, off, t) && 0 < |t| <= 63 && AllNumberBytes(t) && NumberEnds(buf, off + |t|)
    requires FloatPrefix(t) == |t| && (t[0] == MINUS || IsDigit(t[0]))
    ensures ParseValue(buf, off, depth) == Done(NumberValue(t), off + |t|)
  {
    hide FloatPrefix, NumberValue, ParseArray, ParseObject, ParseString;
    assert ParseNumber(buf, off) == Done(NumberValue(t), off + |t|) by {
      RunIsText(buf, off, t, 63);
      assert buf[off..off + |t|] == t;
      assert t[..|t|] == t;
    }
    TextByte(buf, off, t, 0);
    NoKeyword(buf, off);
  }

  lemma NoKeyword(buf: bytes, off: nat)
    requires off < |buf| && buf[off] !in [110, 102, 116]
    ensures !TextAt(buf, off, TEXT_NULL) && !TextAt(buf, off, TEXT_FALSE) && !TextAt(buf, off, TEXT_TRUE)
  {
    if TextAt(buf, off, TEXT_NULL) { TextByte(buf, off, TEXT_NULL, 0); }
    if TextAt(buf, off, TEXT_FALSE) { TextByte(buf, off, TEXT_FALSE, 0); }
    if TextAt(buf, off, TEXT_TRUE) { TextByte(buf, off, TEXT_TRUE, 0); }
  }

  // ----- the round trip -----

  lemma OtherText(buf: bytes, off: nat, t: bytes)
    requires t != [] && off < |buf| && buf[off] != t[0]
    ensures !TextAt(buf, off, t)
  {
  }

  lemma KeywordReads(buf: bytes, off: nat, v: Json, depth: nat)
    requires (v.Null? || v.False? || v.True?) && TextAt(buf, off, Print(v, false, 0))
    ensures ParseValue(buf, off, depth) == Done(v, off + |Print(v, false, 0)|)
  {
    hide ParseNumber, ParseString, ParseArray, ParseObject;
    TextByte(buf, off, Print(v, false, 0), 0);
    if !v.Null? { OtherText(buf, off, TEXT_NULL); }
    if v.True? { OtherText(buf, off, TEXT_FALSE); }
  }

  lemma StringValueReads(buf: bytes, off: nat, s: bytes, depth: nat)
    requires IsCString(s) && TextAt(buf, off, PrintString(s))
    ensures ParseValue(buf, off, depth) == Done(String(s), off + |PrintString(s)|)
  {
    hide ParseNumber, ParseArray, ParseObject;
    StringReads(buf, off, s);
    TextByte(buf, off, PrintString(s), 0);
    NoKeyword(buf, off);
  }

  lemma ScalarReads(buf: bytes, off: nat, v: Json, format: bool, depth: nat)
    requires !v.Array? && !v.Object? && Storable(v)
    requires TextAt(buf, off, Print(v, format, depth)) && NumberEnds(buf, off + |Print(v, format, depth)|)
    ensures ParseValue(buf, off, depth) == Done(v, off + |Print(v, format, depth)|)
  {
    hide ParseValue, TextAt, NumberEnds, PrintInt, PrintString;
    match v
    case Integer(i) =>
      IntText(i);
      NumberReads(buf, off, PrintInt(i), depth);
    case Real(text) => NumberReads(buf, off, text, depth);
    case String(s) => StringValueReads(buf, off, s, depth);
    case _ => KeywordReads(buf, off, v, depth);
  }

  /** A printed value is not empty and starts with neither a blank nor a closing bracket. */
  lemma FirstByte(v: Json, format: bool, depth: nat)
    requires Storable(v)
    ensures |Print(v, format, depth)| > 0 && 32 < Print(v, format, depth)[0] < 128
    ensures Print(v, format, depth)[0] != CLOSE_ARRAY
  {
    if v.Integer? {
      IntText(v.i);
    }
  }

  lemma {:induction false} ValueReads(buf: bytes, off: nat, v: Json, format: bool, depth: nat)
    requires Storable(v) && depth + Nesting(v) <= NESTING_LIMIT
    requires TextAt(buf, off, Print(v, format, depth)) && NumberEnds(buf, off + |Print(v, format, depth)|)
    ensures ParseValue(buf, off, depth) == Done(v, off + |Print(v, format, depth)|)
    decreases v, 1
  {
    match v
    case Array(_) => ArrayReads(buf, off, v, format, depth);
    case Object(_) => ObjectReads(buf, off, v, format, depth);
    case Null => ScalarReads(buf, off, v, format, depth);
    case False => ScalarReads(buf, off, v, format, depth);
    case True => ScalarReads(buf, off, v, format, depth);
    case Integer(_) => ScalarReads(buf, off, v, format, depth);
    case Real(_) => ScalarReads(buf, off, v, format, depth);
    case String(_) => ScalarReads(buf, off, v, format, depth);
  }

  lemma ArrayText(v: Json, format: bool, depth: nat)
    requires v.Array? && Storable(v)
    ensures Print(v, format, depth) == [OPEN_ARRAY] + (PrintItems(v.items, format, depth + 1) + [CLOSE_ARRAY])
    ensures StorableItems(v.items) && Nesting(v) == 1 + NestingItems(v.items)
    ensures v.items == [] ==> PrintItems(v.items, format, depth + 1) == []
    ensures v.items != [] ==> SafeStart(PrintItems(v.items, format, depth + 1))
  {
    if v.items != [] { FirstByte(v.items[0], format, depth + 1); }
  }

  /** A text that is not empty and starts with neither a blank nor a closing bracket. */
  predicate SafeStart(t: bytes) { t != [] && t[0] > 32 && t[0] != CLOSE_ARRAY }

  lemma {:induction false} ArrayReads(buf: bytes, off: nat, v: Json, format: bool, depth: nat)
    requires v.Array? && Storable(v) && depth + Nesting(v) <= NESTING_LIMIT
    requires TextAt(buf, off, Print(v, format, depth))
    ensures ParseValue(buf, off, depth) == Done(v, off + |Print(v, format, depth)|)
    decreases v, 0
  {
    hide *;
    var body := PrintItems(v.items, format, depth + 1);
    ArrayText(v, format, depth);
    TextSplit(buf, off, [OPEN_ARRAY], body + [CLOSE_ARRAY]);
    TextSplit(buf, off + 1, body, [CLOSE_ARRAY]);
    var close := off + 1 + |body|;
    if v.items != [] {
      ByteThere(buf, close, CLOSE_ARRAY);
      ItemsRead(buf, off + 1, v.items, format, depth + 1);
    }
    ArrayFrame(buf, off, v.items, depth, body);
  }

  lemma ByteThere(buf: bytes, off: nat, b: byte)
    requires TextAt(buf, off, [b])
    ensures ByteAt(buf, off, b)
  {
    TextByte(buf, off, [b], 0);
  }

  lemma ArrayFrame(buf: bytes, off: nat, items: seq<Json>, depth: nat, body: bytes)
    requires TextAt(buf, off, [OPEN_ARRAY]) && TextAt(buf, off + 1, body)
        && TextAt(buf, off + 1 + |body|, [CLOSE_ARRAY])
    requires depth < NESTING_LIMIT
    requires if items == [] then body == [] else
               SafeStart(body) && ParseItems(buf, off + 1, depth + 1) == Done(items, off + 1 + |body|)
    ensures ParseValue(buf, off, depth) == Done(Array(items), off + 2 + |body|)
  {
    hide ParseValue, ParseItems, ParseMembers, ParseObject, ParseString, ParseNumber, SkipBlanks, TextAt;
    ByteThere(buf, off, OPEN_ARRAY);
    ByteThere(buf, off + 1 + |body|, CLOSE_ARRAY);
    DispatchArray(buf, off, depth);
    if items != [] { TextByte(buf, off + 1, body, 0); }
    SkipTo(buf, off + 1, off + 1);
  }

  lemma DispatchArray(buf: bytes, off: nat, depth: nat)
    requires ByteAt(buf, off, OPEN_ARRAY)
    ensures ParseValue(buf, off, depth) == ParseArray(buf, off, depth)
  {
    hide ParseItems, ParseMembers, ParseObject, ParseString, ParseNumber, SkipBlanks, TextAt;
    NoKeyword(buf, off);
  }

  lemma DispatchObject(buf: bytes, off: nat, depth: nat)
    requires ByteAt(buf, off, OPEN_OBJECT)
    ensures ParseValue(buf, off, depth) == ParseObject(buf, off, depth)
  {
    hide ParseItems, ParseMembers, ParseArray, ParseString, ParseNumber, SkipBlanks, TextAt;
    NoKeyword(buf, off);
  }

  lemma ItemsText(items: seq<Json>, format: bool, depth: nat)
    requires items != [] && StorableItems(items)
    ensures Storable(items[0]) && StorableItems(items[1..])
    ensures Nesting(items[0]) <= NestingItems(items) && NestingItems(items[1..]) <= NestingItems(items)
    ensures var first, rest := Print(items[0], format, depth), PrintItems(items[1..], format, depth);
            PrintItems(items, format, depth) == if |items| == 1 then first else first + (Separator(format) + rest)
  {
  }

  lemma {:induction false} ItemsRead(buf: bytes, off: nat, items: seq<Json>, format: bool, depth: nat)
    requires items != [] && StorableItems(items) && depth + NestingItems(items) <= NESTING_LIMIT
    requires TextAt(buf, off, PrintItems(items, format, depth))
    requires ByteAt(buf, off + |PrintItems(items, format, depth)|, CLOSE_ARRAY)
    ensures ParseItems(buf, off, depth) == Done(items, off + |PrintItems(items, format, depth)|)
    decreases items, 0
  {
    hide *;
    var next, start := ItemsPlaced(buf, off, items, format, depth);
    ItemsText(items, format, depth);
    ValueReads(buf, off, items[0], format, depth);
    if |items| == 1 {
      LastItem(buf, off, items, depth, next);
    } else {
      assert depth + NestingItems(items[1..]) <= NESTING_LIMIT;
      var rest := |PrintItems(items[1..], format, depth)|;
      assert start + rest == off + |PrintItems(items, format, depth)|;
      ItemsRead(buf, start, items[1..], format, depth);
      NextItem(buf, off, items, format, depth, next, start, rest);
    }
  }

  /** Where the parts of a printed list are: its first value ends at `next`, the rest starts at `start`. */
  lemma ItemsPlaced(buf: bytes, off: nat, items: seq<Json>, format: bool, depth: nat) returns (next: nat, start: nat)
    requires items != [] && StorableItems(items) && TextAt(buf, off, PrintItems(items, format, depth))
    requires ByteAt(buf, off + |PrintItems(items, format, depth)|, CLOSE_ARRAY)
    ensures TextAt(buf, off, Print(items[0], format, depth)) && next == off + |Print(items[0], format, depth)|
    ensures NumberEnds(buf, next)
    ensures |items| == 1 ==> next == off + |PrintItems(items, format, depth)|
    ensures |items| > 1 ==>
              && TextAt(buf, next, Separator(format)) && start == next + |Separator(format)|
              && TextAt(buf, start, PrintItems(items[1..], format, depth))
              && start + |PrintItems(items[1..], format, depth)| == off + |PrintItems(items, format, depth)|
  {
    hide *;
    ItemsText(items, format, depth);
    var first, sep, rest := Print(items[0], format, depth), Separator(format), PrintItems(items[1..], format, depth);
    next, start := off + |first|, off + |first| + |sep|;
    if |items| == 1 {
      EndsBefore(buf, next, CLOSE_ARRAY);
    } else {
      TextSplit(buf, off, first, sep + rest);
      TextSplit(buf, next, sep, rest);
      SeparatorText(buf, next, format);
      EndsBefore(buf, next, COMMA);
    }
  }

  lemma EndsBefore(buf: bytes, next: nat, b: byte)
    requires ByteAt(buf, next, b) && (b <= 32 || b in [COMMA, CLOSE_ARRAY, CLOSE_OBJECT])
    ensures NumberEnds(buf, next)
  {
  }

  lemma SeparatorText(buf: bytes, off: nat, format: bool)
    requires TextAt(buf, off, Separator(format))
    ensures ByteAt(buf, off, COMMA)
    ensures |Separator(format)| == if format then 2 else 1
    ensures format ==> ByteAt(buf, off + 1, SPACE)
  {
    TextByte(buf, off, Separator(format), 0);
    if format { TextByte(buf, off, Separator(format), 1); }
  }

  lemma LastItem(buf: bytes, off: nat, items: seq<Json>, depth: nat, next: nat)
    requires |items| == 1 && ParseValue(buf, off, depth) == Done(items[0], next) && ByteAt(buf, next, CLOSE_ARRAY)
    ensures ParseItems(buf, off, depth) == Done(items, next)
  {
    hide ParseValue, SkipBlanks;
    SkipTo(buf, next, next);
    assert items == [items[0]];
  }

  lemma PrintedItemsStart(items: seq<Json>, format: bool, depth: nat)
    requires items != [] && StorableItems(items)
    ensures SafeStart(PrintItems(items, format, depth))
  {
    FirstByte(items[0], format, depth);
  }

  lemma NextItem(buf: bytes, off: nat, items: seq<Json>, format: bool, depth: nat, next: nat, start: nat, rest: nat)
    requires |items| > 1 && StorableItems(items[1..])
    requires TextAt(buf, next, Separator(format)) && start == next + |Separator(format)|
    requires TextAt(buf, start, PrintItems(items[1..], format, depth))
    requires ParseValue(buf, off, depth) == Done(items[0], next)
    requires ParseItems(buf, start, depth) == Done(items[1..], start + rest)
    ensures ParseItems(buf, off, depth) == Done(items, start + rest)
  {
    hide ParseValue, SkipBlanks, TextAt, Separator, PrintItems, StorableItems;
    SeparatorText(buf, next, format);
    PrintedItemsStart(items[1..], format, depth);
    TextByte(buf, start, PrintItems(items[1..], format, depth), 0);
    SkipTo(buf, next, next);
    SkipTo(buf, next + 1, start);
    assert items == [items[0]] + items[1..];
  }

  lemma ObjectText(v: Json, format: bool, depth: nat)
    requires v.Object? && Storable(v)
    ensures Print(v, format, depth)
            == Opening(format) + (PrintMembers(v.members, format, depth + 1) + (Indent(format, depth) + [CLOSE_OBJECT]))
    ensures StorableMembers(v.members) && Nesting(v) == 1 + NestingMembers(v.members)
    ensures v.members == [] ==> PrintMembers(v.members, format, depth + 1) == []
  {
  }

  lemma {:induction false} ObjectReads(buf: bytes, off: nat, v: Json, format: bool, depth: nat)
    requires v.Object? && Storable(v) && depth + Nesting(v) <= NESTING_LIMIT
    requires TextAt(buf, off, Print(v, format, depth))
    ensures ParseValue(buf, off, depth) == Done(v, off + |Print(v, format, depth)|)
    decreases v, 0
  {
    hide *;
    var open, tabs := Opening(format), Indent(format, depth);
    var body := PrintMembers(v.members, format, depth + 1);
    ObjectText(v, format, depth);
    TextSplit(buf, off, open, body + (tabs + [CLOSE_OBJECT]));
    TextSplit(buf, off + |open|, body, tabs + [CLOSE_OBJECT]);
    TextSplit(buf, off + |open| + |body|, tabs, [CLOSE_OBJECT]);
    var close := off + |open| + |body| + |tabs|;
    ByteThere(buf, close, CLOSE_OBJECT);
    if v.members != [] {
      IndentBlank(buf, off + |open| + |body|, format, depth);
      MembersRead(buf, off + |open|, v.members, format, depth + 1, close);
      FirstKey(buf, off + |open|, v.members, format, depth + 1);
    }
    ObjectFrame(buf, off, v.members, format, depth, body);
  }

  lemma OpeningText(buf: bytes, off: nat, format: bool)
    requires TextAt(buf, off, Opening(format))
    ensures ByteAt(buf, off, OPEN_OBJECT)
    ensures |Opening(format)| == if format then 2 else 1
    ensures format ==> ByteAt(buf, off + 1, LF)
  {
    TextByte(buf, off, Opening(format), 0);
    if format { TextByte(buf, off, Opening(format), 1); }
  }

  lemma ObjectFrame(buf: bytes, off: nat, members: seq<Member>, format: bool, depth: nat, body: bytes)
    requires depth < NESTING_LIMIT && TextAt(buf, off, Opening(format))
    requires TextAt(buf, off + |Opening(format)| + |body|, Indent(format, depth))
    requires ByteAt(buf, off + |Opening(format)| + |body| + |Indent(format, depth)|, CLOSE_OBJECT)
    requires if members == [] then body == [] else
               var start := off + |Opening(format)|;
               && StartsKey(buf, start, format, depth + 1)
               && ParseMembers(buf, start + |Indent(format, depth + 1)|, depth + 1)
                  == Done(members, start + |body| + |Indent(format, depth)|)
    ensures ParseValue(buf, off, depth) == Done(Object(members),
        off + |Opening(format)| + |body| + |Indent(format, depth)| + 1)
  {
    hide ParseValue, ParseItems, ParseMembers, ParseArray, ParseString, ParseNumber, SkipBlanks, TextAt, Opening,
        Indent;
    var start := off + |Opening(format)|;
    var close := start + |body| + |Indent(format, depth)|;
    OpeningText(buf, off, format);
    DispatchObject(buf, off, depth);
    if members == [] {
      IndentBlank(buf, start, format, depth);
      SkipTo(buf, off + 1, close);
    } else {
      SkipTo(buf, off + 1, start + |Indent(format, depth + 1)|);
    }
  }

  lemma IndentBlank(buf: bytes, off: nat, format: bool, depth: nat)
    requires TextAt(buf, off, Indent(format, depth))
    ensures forall k :: off <= k < off + |Indent(format, depth)| ==> buf[k] <= 32
  {
    forall k | off <= k < off + |Indent(format, depth)| ensures buf[k] <= 32 {
      TextByte(buf, off, Indent(format, depth), k - off);
    }
  }

  /** A key's indentation and its opening quote are at `off`. */
  predicate StartsKey(buf: bytes, off: nat, format: bool, depth: nat) {
    && ByteAt(buf, off + |Indent(format, depth)|, QUOTE)
    && forall k :: off <= k < off + |Indent(format, depth)| ==> buf[k] <= 32
  }

  lemma MembersText(members: seq<Member>, format: bool, depth: nat)
    requires members != [] && StorableMembers(members)
    ensures IsCString(members[0].key) && Storable(members[0].value) && StorableMembers(members[1..])
    ensures Nesting(members[0].value) <= NestingMembers(members)
    ensures NestingMembers(members[1..]) <= NestingMembers(members)
    ensures PrintMembers(members, format, depth)
            == KeyText(members[0].key, format, depth)
               + (Print(members[0].value, format, depth)
                  + (MemberEnd(|members| == 1, format) + PrintMembers(members[1..], format, depth)))
    ensures |members| == 1 ==> PrintMembers(members[1..], format, depth) == []
    ensures SafeStart(Print(members[0].value, format, depth))
  {
    FirstByte(members[0].value, format, depth);
  }

  lemma FirstKey(buf: bytes, off: nat, members: seq<Member>, format: bool, depth: nat)
    requires members != [] && StorableMembers(members) && TextAt(buf, off, PrintMembers(members, format, depth))
    ensures StartsKey(buf, off, format, depth)
  {
    hide *;
    var m := members[0];
    MembersText(members, format, depth);
    TextSplit(buf, off, KeyText(m.key, format, depth),
              Print(m.value, format, depth)
              + (MemberEnd(|members| == 1, format) + PrintMembers(members[1..], format, depth)));
    KeyStarts(buf, off, m.key, format, depth);
  }

  lemma KeyStarts(buf: bytes, off: nat, key: bytes, format: bool, depth: nat)
    requires TextAt(buf, off, KeyText(key, format, depth))
    ensures StartsKey(buf, off, format, depth)
  {
    var tabs := Indent(format, depth);
    TextSplit(buf, off, tabs, PrintString(key) + Colon(format));
    TextByte(buf, off + |tabs|, PrintString(key) + Colon(format), 0);
    IndentBlank(buf, off, format, depth);
  }

  lemma {:induction false} MembersRead(buf: bytes, off: nat, members: seq<Member>, format: bool, depth: nat, close: nat)
    requires members != [] && StorableMembers(members) && depth + NestingMembers(members) <= NESTING_LIMIT
    requires TextAt(buf, off, PrintMembers(members, format, depth))
    requires ByteAt(buf, close, CLOSE_OBJECT) && off + |PrintMembers(members, format, depth)| <= close
    requires forall k :: off + |PrintMembers(members, format, depth)| <= k < close ==> buf[k] <= 32
    ensures ParseMembers(buf, off + |Indent(format, depth)|, depth) == Done(members, close)
    decreases members, 0
  {
    hide *;
    var m, last := members[0], |members| == 1;
    var key, text := KeyText(m.key, format, depth), Print(m.value, format, depth);
    var end, rest := MemberEnd(last, format), PrintMembers(members[1..], format, depth);
    var value, next := off + |key|, off + |key| + |text|;
    MembersText(members, format, depth);
    TextSplit(buf, off, key, text + (end + rest));
    TextSplit(buf, value, text, end + rest);
    TextSplit(buf, next, end, rest);
    AfterMember(buf, next, last, format, close);
    ValueReads(buf, value, m.value, format, depth);
    SafeByte(buf, value, text);
    if last {
      LastMember(buf, off, m, format, depth, next, close);
      assert members == [m];
    } else {
      FirstKey(buf, next + |end|, members[1..], format, depth);
      MembersRead(buf, next + |end|, members[1..], format, depth, close);
      NextMember(buf, off, members, format, depth, next, close);
    }
  }

  lemma SafeByte(buf: bytes, off: nat, t: bytes)
    requires TextAt(buf, off, t) && SafeStart(t)
    ensures off < |buf| && buf[off] > 32
  {
    TextByte(buf, off, t, 0);
  }

  lemma LastMember(buf: bytes, off: nat, m: Member, format: bool, depth: nat, next: nat, close: nat)
    requires IsCString(m.key) && TextAt(buf, off, KeyText(m.key, format, depth))
    requires var value := off + |KeyText(m.key, format, depth)|;
             value < |buf| && buf[value] > 32 && ParseValue(buf, value, depth) == Done(m.value, next)
    requires SkipBlanks(buf, next) == close && ByteAt(buf, close, CLOSE_OBJECT)
    ensures ParseMembers(buf, off + |Indent(format, depth)|, depth) == Done([m], close)
  {
    hide ParseValue, ParseString, SkipBlanks, KeyText, Indent, Colon, TextAt, IsCString;
    KeyReads(buf, off, m.key, format, depth);
  }

  lemma NextMember(buf: bytes, off: nat, members: seq<Member>, format: bool, depth: nat, next: nat, close: nat)
    requires |members| > 1 && IsCString(members[0].key) && TextAt(buf, off, KeyText(members[0].key, format, depth))
    requires var value := off + |KeyText(members[0].key, format, depth)|;
             value < |buf| && buf[value] > 32 && ParseValue(buf, value, depth) == Done(members[0].value, next)
    requires SkipBlanks(buf, next) == next && ByteAt(buf, next, COMMA) && (format ==> ByteAt(buf, next + 1, LF))
    requires var start := next + |MemberEnd(false, format)|;
             && StartsKey(buf, start, format, depth)
             && ParseMembers(buf, start + |Indent(format, depth)|, depth) == Done(members[1..], close)
    ensures ParseMembers(buf, off + |Indent(format, depth)|, depth) == Done(members, close)
  {
    hide ParseValue, ParseString, SkipBlanks, KeyText, Indent, Colon, TextAt, IsCString;
    var m := members[0];
    KeyReads(buf, off, m.key, format, depth);
    var start := next + |MemberEnd(false, format)|;
    SkipTo(buf, next + 1, start + |Indent(format, depth)|);
    assert members == [m] + members[1..];
  }

  lemma KeyReads(buf: bytes, off: nat, key: bytes, format: bool, depth: nat)
    requires IsCString(key) && TextAt(buf, off, KeyText(key, format, depth))
    requires var value := off + |KeyText(key, format, depth)|; value < |buf| && buf[value] > 32
    ensures var colon := off + |KeyText(key, format, depth)| - |Colon(format)|;
            && ParseString(buf, off + |Indent(format, depth)|) == Done(key, colon)
            && SkipBlanks(buf, colon) == colon && ByteAt(buf, colon, COLON)
            && SkipBlanks(buf, colon + 1) == colon + |Colon(format)|
  {
    hide Indent, Colon, ParseString, SkipBlanks, PrintString, TextAt;
    var tabs, colon := Indent(format, depth), Colon(format);
    var text := PrintString(key);
    TextSplit(buf, off, tabs, text + colon);
    TextSplit(buf, off + |tabs|, text, colon);
    var at := off + |tabs| + |text|;
    StringReads(buf, off + |tabs|, key);
    ColonText(buf, at, format);
    SkipTo(buf, at, at);
    SkipTo(buf, at + 1, at + |colon|);
  }

  lemma ColonText(buf: bytes, off: nat, format: bool)
    requires TextAt(buf, off, Colon(format))
    ensures ByteAt(buf, off, COLON)
    ensures |Colon(format)| == if format then 2 else 1
    ensures format ==> ByteAt(buf, off + 1, TAB)
  {
    TextByte(buf, off, Colon(format), 0);
    if format { TextByte(buf, off, Colon(format), 1); }
  }

  /** What the reader finds behind a member's value: a comma, or blanks and the closing brace. */
  lemma AfterMember(buf: bytes, next: nat, last: bool, format: bool, close: nat)
    requires TextAt(buf, next, MemberEnd(last, format))
    requires last ==> ByteAt(buf, close, CLOSE_OBJECT) && next + |MemberEnd(last, format)| <= close
    requires last ==> forall k :: next + |MemberEnd(last, format)| <= k < close ==> buf[k] <= 32
    ensures NumberEnds(buf, next)
    ensures SkipBlanks(buf, next) == if last then close else next
    ensures !last ==> ByteAt(buf, next, COMMA)
    ensures !last && format ==> ByteAt(buf, next + 1, LF)
  {
    var end := MemberEnd(last, format);
    if end != [] { TextByte(buf, next, end, 0); }
    if |end| == 2 { TextByte(buf, next, end, 1); }
    SkipTo(buf, next, if last then close else next);
  }

  // ----- a value nested too deep prints, but does not parse -----

  lemma {:induction false} DeepValueFails(buf: bytes, off: nat, v: Json, format: bool, depth: nat)
    requires Storable(v) && depth <= NESTING_LIMIT < depth + Nesting(v)
    requires TextAt(buf, off, Print(v, format, depth))
    ensures ParseValue(buf, off, depth) == Fail
    decreases v, 1
  {
    hide *;
    NestedIsContainer(v);
    if v.Array? {
      var body := PrintItems(v.items, format, depth + 1);
      ArrayText(v, format, depth);
      TextSplit(buf, off, [OPEN_ARRAY], body + [CLOSE_ARRAY]);
      TextSplit(buf, off + 1, body, [CLOSE_ARRAY]);
      ByteThere(buf, off, OPEN_ARRAY);
      ByteThere(buf, off + 1 + |body|, CLOSE_ARRAY);
      DispatchArray(buf, off, depth);
      if depth < NESTING_LIMIT {
        NestedHasItems(v);
        DeepItemsFail(buf, off + 1, v.items, format, depth + 1);
      }
      ArrayFails(buf, off, depth, body);
    } else {
      var open, tabs := Opening(format), Indent(format, depth);
      var body := PrintMembers(v.members, format, depth + 1);
      ObjectText(v, format, depth);
      TextSplit(buf, off, open, body + (tabs + [CLOSE_OBJECT]));
      TextSplit(buf, off + |open|, body, tabs + [CLOSE_OBJECT]);
      OpeningText(buf, off, format);
      DispatchObject(buf, off, depth);
      if depth < NESTING_LIMIT {
        NestedHasItems(v);
        FirstKey(buf, off + |open|, v.members, format, depth + 1);
        DeepMembersFail(buf, off + |open|, v.members, format, depth + 1);
      }
      ObjectFails(buf, off, depth, format);
    }
  }

  lemma NestedIsContainer(v: Json)
    requires Nesting(v) > 0
    ensures v.Array? || v.Object?
  {
  }

  lemma NestedHasItems(v: Json)
    requires Nesting(v) > 1
    ensures v.Array? ==> v.items != []
    ensures v.Object? ==> v.members != []
  {
  }

  lemma ArrayFails(buf: bytes, off: nat, depth: nat, body: bytes)
    requires ByteAt(buf, off, OPEN_ARRAY)
    requires depth < NESTING_LIMIT ==>
               TextAt(buf, off + 1, body) && SafeStart(body) && ParseItems(buf, off + 1, depth + 1) == Fail
    ensures ParseArray(buf, off, depth) == Fail
  {
    hide ParseItems, SkipBlanks, TextAt;
    if depth < NESTING_LIMIT {
      TextByte(buf, off + 1, body, 0);
      SkipTo(buf, off + 1, off + 1);
    }
  }

  lemma ObjectFails(buf: bytes, off: nat, depth: nat, format: bool)
    requires ByteAt(buf, off, OPEN_OBJECT) && TextAt(buf, off, Opening(format))
    requires depth < NESTING_LIMIT ==>
               var start := off + |Opening(format)|;
               StartsKey(buf, start, format, depth + 1)
                   && ParseMembers(buf, start + |Indent(format, depth + 1)|, depth + 1) == Fail
    ensures ParseObject(buf, off, depth) == Fail
  {
    hide ParseMembers, SkipBlanks, TextAt, Opening, Indent;
    if depth < NESTING_LIMIT {
      OpeningText(buf, off, format);
      SkipTo(buf, off + 1, off + |Opening(format)| + |Indent(format, depth + 1)|);
    }
  }

  lemma {:induction false} DeepItemsFail(buf: bytes, off: nat, items: seq<Json>, format: bool, depth: nat)
    requires items != [] && StorableItems(items) && depth <= NESTING_LIMIT < depth + NestingItems(items)
    requires TextAt(buf, off, PrintItems(items, format, depth))
    requires ByteAt(buf, off + |PrintItems(items, format, depth)|, CLOSE_ARRAY)
    ensures ParseItems(buf, off, depth) == Fail
    decreases items, 0
  {
    hide *;
    var next, start := ItemsPlaced(buf, off, items, format, depth);
    ItemsText(items, format, depth);
    if depth + Nesting(items[0]) > NESTING_LIMIT {
      DeepValueFails(buf, off, items[0], format, depth);
      FirstItemFails(buf, off, depth);
    } else {
      DeepestItem(items);
      assert ParseValue(buf, off, depth) == Done(items[0], next) by { ValueReads(buf, off, items[0], format, depth); }
      assert ParseItems(buf, start, depth) == Fail by { DeepItemsFail(buf, start, items[1..], format, depth); }
      OtherItemsFail(buf, off, items, format, depth, next, start);
    }
  }

  lemma DeepestItem(items: seq<Json>)
    requires items != [] && Nesting(items[0]) < NestingItems(items)
    ensures |items| > 1 && NestingItems(items[1..]) == NestingItems(items)
  {
  }

  lemma FirstItemFails(buf: bytes, off: nat, depth: nat)
    requires ParseValue(buf, off, depth) == Fail
    ensures ParseItems(buf, off, depth) == Fail
  {
  }

  lemma OtherItemsFail(buf: bytes, off: nat, items: seq<Json>, format: bool, depth: nat, next: nat, start: nat)
    requires |items| > 1 && StorableItems(items[1..])
    requires TextAt(buf, next, Separator(format)) && start == next + |Separator(format)|
    requires TextAt(buf, start, PrintItems(items[1..], format, depth))
    requires ParseValue(buf, off, depth) == Done(items[0], next) && ParseItems(buf, start, depth) == Fail
    ensures ParseItems(buf, off, depth) == Fail
  {
    hide ParseValue, SkipBlanks, TextAt, Separator, PrintItems, StorableItems;
    SeparatorText(buf, next, format);
    PrintedItemsStart(items[1..], format, depth);
    TextByte(buf, start, PrintItems(items[1..], format, depth), 0);
    SkipTo(buf, next, next);
    SkipTo(buf, next + 1, start);
  }

  lemma {:induction false} DeepMembersFail(buf: bytes, off: nat, members: seq<Member>, format: bool, depth: nat)
    requires members != [] && StorableMembers(members) && depth <= NESTING_LIMIT < depth + NestingMembers(members)
    requires TextAt(buf, off, PrintMembers(members, format, depth))
    ensures ParseMembers(buf, off + |Indent(format, depth)|, depth) == Fail
    decreases members, 0
  {
    hide *;
    var m, last := members[0], |members| == 1;
    var key, text := KeyText(m.key, format, depth), Print(m.value, format, depth);
    var end, rest := MemberEnd(last, format), PrintMembers(members[1..], format, depth);
    var value, next := off + |key|, off + |key| + |text|;
    MembersText(members, format, depth);
    TextSplit(buf, off, key, text + (end + rest));
    TextSplit(buf, value, text, end + rest);
    SafeByte(buf, value, text);
    KeyReads(buf, off, m.key, format, depth);
    if depth + Nesting(m.value) > NESTING_LIMIT {
      DeepValueFails(buf, value, m.value, format, depth);
      FirstMemberFails(buf, off, m.key, format, depth);
    } else {
      DeepestMember(members);
      assert !last;
      TextSplit(buf, next, end, rest);
      AfterMember(buf, next, last, format, 0);
      ValueReads(buf, value, m.value, format, depth);
      FirstKey(buf, next + |end|, members[1..], format, depth);
      DeepMembersFail(buf, next + |end|, members[1..], format, depth);
      OtherMembersFail(buf, off, m, format, depth, next);
    }
  }

  lemma DeepestMember(members: seq<Member>)
    requires members != [] && Nesting(members[0].value) < NestingMembers(members)
    ensures |members| > 1 && NestingMembers(members[1..]) == NestingMembers(members)
  {
  }

  lemma FirstMemberFails(buf: bytes, off: nat, key: bytes, format: bool, depth: nat)
    requires IsCString(key) && TextAt(buf, off, KeyText(key, format, depth))
    requires var value := off + |KeyText(key, format, depth)|;
             value < |buf| && buf[value] > 32 && ParseValue(buf, value, depth) == Fail
    ensures ParseMembers(buf, off + |Indent(format, depth)|, depth) == Fail
  {
    hide ParseValue, ParseString, SkipBlanks, KeyText, Indent, Colon, TextAt, IsCString;
    KeyReads(buf, off, key, format, depth);
  }

  lemma OtherMembersFail(buf: bytes, off: nat, m: Member, format: bool, depth: nat, next: nat)
    requires IsCString(m.key) && TextAt(buf, off, KeyText(m.key, format, depth))
    requires var value := off + |KeyText(m.key, format, depth)|;
             value < |buf| && buf[value] > 32 && ParseValue(buf, value, depth) == Done(m.value, next)
    requires SkipBlanks(buf, next) == next && ByteAt(buf, next, COMMA) && (format ==> ByteAt(buf, next + 1, LF))
    requires var start := next + |MemberEnd(false, format)|;
             StartsKey(buf, start, format, depth) && ParseMembers(buf, start + |Indent(format, depth)|, depth) == Fail
    ensures ParseMembers(buf, off + |Indent(format, depth)|, depth) == Fail
  {
    hide ParseValue, ParseString, SkipBlanks, KeyText, Indent, Colon, TextAt, IsCString;
    KeyReads(buf, off, m.key, format, depth);
    var start := next + |MemberEnd(false, format)|;
    SkipTo(buf, next + 1, start + |Indent(format, depth)|);
  }

  /** A printed value parses, and to itself, exactly when it is nested no deeper than the limit. */
  lemma PrintedTextParsesIff(v: Json, format: bool, maxSize: nat)
    requires Storable(v) && |Print(v, format, 0)| <= maxSize
    ensures ParseDocument(Print(v, format, 0), maxSize) == if Nesting(v) <= NESTING_LIMIT then Some(v) else None
  {
    hide ParseValue, Print, Storable, Nesting, TextAt;
    if Nesting(v) <= NESTING_LIMIT {
      PrintedTextReadsBack(v, format, maxSize);
    } else {
      var t := Print(v, format, 0);
      FirstByte(v, format, 0);
      SkipTo(t, 0, 0);
      WholeText(t);
      DeepValueFails(t, 0, v, format, 0);
    }
  }

  lemma WholeText(t: bytes)
    ensures TextAt(t, 0, t)
  {
  }

  // ----- whatever parses can be printed and parsed again -----

  lemma {:induction false} DigitRunCut(s: bytes, i: nat, k: nat)
    requires i <= k <= |s|
    ensures DigitRun(s[..k], i) == if DigitRun(s, i) <= k - i then DigitRun(s, i) else k - i
    decreases k - i
  {
    if i < k { DigitRunCut(s, i + 1, k); }
  }

  /** What the number conversion reads, it reads again in full. */
  lemma FloatPrefixAgain(s: bytes)
    ensures FloatPrefix(s[..FloatPrefix(s)]) == FloatPrefix(s)
  {
    hide ExponentLength, DigitRun, IsDigit;
    var n := FloatPrefix(s);
    var sign := if s != [] && (s[0] == MINUS || s[0] == 43) then 1 else 0;
    var afterWhole := sign + DigitRun(s, sign);
    if n > 0 {
      DigitRunCut(s, sign, n);
      if afterWhole < |s| && s[afterWhole] == 46 {
        DigitRunCut(s, afterWhole + 1, n);
        ExponentAgain(s, afterWhole + 1 + DigitRun(s, afterWhole + 1), n);
      } else {
        ExponentAgain(s, afterWhole, n);
      }
    }
  }

  lemma ExponentAgain(s: bytes, i: nat, n: nat)
    requires i <= n <= |s| && n == i + ExponentLength(s, i)
    ensures ExponentLength(s[..n], i) == n - i
  {
    if n > i {
      var sign := if i + 1 < |s| && (s[i + 1] == MINUS || s[i + 1] == 43) then 1 else 0;
      DigitRunCut(s, i + 1 + sign, n);
    }
  }

  lemma {:induction false} RunBytes(buf: bytes, off: nat, room: nat)
    requires off <= |buf|
    ensures AllNumberBytes(buf[off..off + NumberRun(buf, off, room)])
    decreases room
  {
    if NumberRun(buf, off, room) > 0 {
      RunBytes(buf, off + 1, room - 1);
      assert buf[off..off + NumberRun(buf, off, room)]
          == [buf[off]] + buf[off + 1..off + 1 + NumberRun(buf, off + 1, room - 1)];
    }
  }

  lemma ParsedNumber(buf: bytes, off: nat)
    requires off < |buf| && (buf[off] == MINUS || IsDigit(buf[off])) && ParseNumber(buf, off).Done?
    ensures Storable(ParseNumber(buf, off).value) && Nesting(ParseNumber(buf, off).value) == 0
  {
    hide FloatPrefix, NumberRun, IntOf;
    var run := buf[off..off + NumberRun(buf, off, 63)];
    var text := run[..FloatPrefix(run)];
    RunBytes(buf, off, 63);
    FloatPrefixAgain(run);
    assert text[0] == buf[off];
  }

  /** Every value the parser returns can be stored and is nested no deeper than the limit. */
  lemma {:induction false} ParsedValue(buf: bytes, off: nat, depth: nat)
    requires depth <= NESTING_LIMIT && ParseValue(buf, off, depth).Done?
    ensures Storable(ParseValue(buf, off, depth).value)
    ensures depth + Nesting(ParseValue(buf, off, depth).value) <= NESTING_LIMIT
    decreases |buf| - off, 2
  {
    hide ParseNumber, ParseString, ParseItems, ParseMembers, SkipBlanks, TextAt;
    if TextAt(buf, off, TEXT_NULL) || TextAt(buf, off, TEXT_FALSE) || TextAt(buf, off, TEXT_TRUE) {
    } else if buf[off] == QUOTE {
      ParsedString(buf, off);
    } else if buf[off] == MINUS || IsDigit(buf[off]) {
      ParsedNumber(buf, off);
    } else {
      var at := SkipBlanks(buf, off + 1);
      if buf[off] == OPEN_ARRAY && !ByteAt(buf, at, CLOSE_ARRAY) {
        ParsedItems(buf, at, depth + 1);
      }
      if buf[off] == OPEN_OBJECT && !ByteAt(buf, at, CLOSE_OBJECT) {
        ParsedMembers(buf, at, depth + 1);
      }
    }
  }

  lemma ParsedString(buf: bytes, off: nat)
    requires ParseString(buf, off).Done?
    ensures IsCString(ParseString(buf, off).value)
  {
  }

  lemma {:induction false} ParsedItems(buf: bytes, off: nat, depth: nat)
    requires depth <= NESTING_LIMIT && ParseItems(buf, off, depth).Done?
    ensures StorableItems(ParseItems(buf, off, depth).value)
    ensures depth + NestingItems(ParseItems(buf, off, depth).value) <= NESTING_LIMIT
    decreases |buf| - off, 3
  {
    hide ParseValue, SkipBlanks;
    ParsedValue(buf, off, depth);
    var first := ParseValue(buf, off, depth);
    var at := SkipBlanks(buf, first.next);
    if ByteAt(buf, at, COMMA) {
      ParsedItems(buf, SkipBlanks(buf, at + 1), depth);
      assert ParseItems(buf, off, depth).value[1..] == ParseItems(buf, SkipBlanks(buf, at + 1), depth).value;
    }
  }

  lemma {:induction false} ParsedMembers(buf: bytes, off: nat, depth: nat)
    requires depth <= NESTING_LIMIT && ParseMembers(buf, off, depth).Done?
    ensures StorableMembers(ParseMembers(buf, off, depth).value)
    ensures depth + NestingMembers(ParseMembers(buf, off, depth).value) <= NESTING_LIMIT
    decreases |buf| - off, 3
  {
    hide ParseValue, SkipBlanks, ParseString, IsCString;
    ParsedString(buf, off);
    var start := SkipBlanks(buf, SkipBlanks(buf, ParseString(buf, off).next) + 1);
    ParsedValue(buf, start, depth);
    var at := SkipBlanks(buf, ParseValue(buf, start, depth).next);
    if ByteAt(buf, at, COMMA) {
      ParsedMembers(buf, SkipBlanks(buf, at + 1), depth);
      assert ParseMembers(buf, off, depth).value[1..] == ParseMembers(buf, SkipBlanks(buf, at + 1), depth).value;
    }
  }

  // ----- whole documents -----

  /** Parsing undoes printing, formatted or not. */
  lemma PrintedTextReadsBack(v: Json, format: bool, maxSize: nat)
    requires Storable(v) && Nesting(v) <= NESTING_LIMIT && |Print(v, format, 0)| <= maxSize
    ensures ParseDocument(Print(v, format, 0), maxSize) == Some(v)
  {
    hide ParseValue, Print, Storable, Nesting;
    var t := Print(v, format, 0);
    FirstByte(v, format, 0);
    assert ParseValue(t, 0, 0) == Done(v, |t|) by { ValueReads(t, 0, v, format, 0); }
    SkipTo(t, 0, 0);
  }

  // ----- numbers that are no 32-bit integers -----

  /** No number of the value is kept as text. */
  predicate NoReals(v: Json)
    decreases v, 1
  {
    match v
    case Real(_) => false
    case Array(items) => NoRealItems(items)
    case Object(members) => NoRealMembers(members)
    case _ => true
  }

  predicate NoRealItems(items: seq<Json>)
    decreases items, 0
  {
    items == [] || (NoReals(items[0]) && NoRealItems(items[1..]))
  }

  predicate NoRealMembers(members: seq<Member>)
    decreases members, 0
  {
    members == [] || (NoReals(members[0].value) && NoRealMembers(members[1..]))
  }

  /** What printf makes of the finite double behind a token: an integer, or a token of its own. */
  type Render = bytes -> Json

  /** print_number: null for an infinity. */
  function Written(text: bytes, render: Render): Json {
    if Overflows(text) then Null else render(text)
  }

  /** The value with each such number as it is written. */
  function Rendered(v: Json, render: Render): Json
    decreases v, 1
  {
    match v
    case Real(text) => Written(text, render)
    case Array(items) => Array(RenderedItems(items, render))
    case Object(members) => Object(RenderedMembers(members, render))
    case _ => v
  }

  function RenderedItems(items: seq<Json>, render: Render): (r: seq<Json>)
    ensures |r| == |items|
    decreases items, 0
  {
    if items == [] then [] else [Rendered(items[0], render)] + RenderedItems(items[1..], render)
  }

  function RenderedMembers(members: seq<Member>, render: Render): (r: seq<Member>)
    ensures |r| == |members|
    decreases members, 0
  {
    if members == [] then []
    else [Member(members[0].key, Rendered(members[0].value, render))] + RenderedMembers(members[1..], render)
  }

  /** Finite doubles are written as 32-bit integers or as tokens that the reader takes for themselves. */
  ghost predicate Numeric(render: Render) {
    forall t: bytes :: IsRealText(t) ==>
      match render(t)
      case Integer(i) => INT_MIN <= i <= INT_MAX
      case Real(text) => IsRealText(text)
      case _ => false
  }

  /** No token of the value overflows, and each is the one that is written for it. */
  predicate Reproduced(v: Json, render: Render)
    decreases v, 1
  {
    match v
    case Real(text) => !Overflows(text) && render(text) == v
    case Array(items) => ReproducedItems(items, render)
    case Object(members) => ReproducedMembers(members, render)
    case _ => true
  }

  predicate ReproducedItems(items: seq<Json>, render: Render)
    decreases items, 0
  {
    items == [] || (Reproduced(items[0], render) && ReproducedItems(items[1..], render))
  }

  predicate ReproducedMembers(members: seq<Member>, render: Render)
    decreases members, 0
  {
    members == [] || (Reproduced(members[0].value, render) && ReproducedMembers(members[1..], render))
  }

  lemma {:induction false} RenderedIsStorable(v: Json, render: Render)
    requires Storable(v) && Numeric(render)
    ensures Storable(Rendered(v, render)) && Nesting(Rendered(v, render)) == Nesting(v)
    ensures Rendered(v, render) == v <==> Reproduced(v, render)
    decreases v, 1
  {
    hide IsRealText, Overflows;
    match v
    case Array(items) => RenderedItemsAreStorable(items, render);
    case Object(members) => RenderedMembersAreStorable(members, render);
    case _ =>
  }

  lemma {:induction false} RenderedItemsAreStorable(items: seq<Json>, render: Render)
    requires StorableItems(items) && Numeric(render)
    ensures var r := RenderedItems(items, render);
      StorableItems(r) && NestingItems(r) == NestingItems(items) && (r == items <==> ReproducedItems(items, render))
    decreases items, 0
  {
    hide Numeric, Storable, Nesting, Rendered, Reproduced;
    if items != [] {
      RenderedIsStorable(items[0], render);
      RenderedItemsAreStorable(items[1..], render);
      var r := RenderedItems(items, render);
      assert r[1..] == RenderedItems(items[1..], render);
      assert items == [items[0]] + items[1..];
    }
  }

  lemma {:induction false} RenderedMembersAreStorable(members: seq<Member>, render: Render)
    requires StorableMembers(members) && Numeric(render)
    ensures var r := RenderedMembers(members, render);
      StorableMembers(r) && NestingMembers(r) == NestingMembers(members)
      && (r == members <==> ReproducedMembers(members, render))
    decreases members, 0
  {
    hide Numeric, Storable, Nesting, Rendered, Reproduced;
    if members != [] {
      RenderedIsStorable(members[0].value, render);
      RenderedMembersAreStorable(members[1..], render);
      var r := RenderedMembers(members, render);
      assert r[1..] == RenderedMembers(members[1..], render);
      assert members == [members[0]] + members[1..];
    }
  }

  lemma {:induction false} WholeNumbersAreReproduced(v: Json, render: Render)
    requires NoReals(v)
    ensures Reproduced(v, render)
    decreases v, 1
  {
    match v
    case Array(items) => WholeItemsAreReproduced(items, render);
    case Object(members) => WholeMembersAreReproduced(members, render);
    case _ =>
  }

  lemma {:induction false} WholeItemsAreReproduced(items: seq<Json>, render: Render)
    requires NoRealItems(items)
    ensures ReproducedItems(items, render)
    decreases items, 0
  {
    if items != [] {
      WholeNumbersAreReproduced(items[0], render);
      WholeItemsAreReproduced(items[1..], render);
    }
  }

  lemma {:induction false} WholeMembersAreReproduced(members: seq<Member>, render: Render)
    requires NoRealMembers(members)
    ensures ReproducedMembers(members, render)
    decreases members, 0
  {
    if members != [] {
      WholeNumbersAreReproduced(members[0].value, render);
      WholeMembersAreReproduced(members[1..], render);
    }
  }

  /**
   Whatever parses, printed and parsed again gives the value with its numbers as they are written; that is the value
   itself exactly when each number that is no 32-bit integer is finite and written with the token it was read from.
   */
  lemma ReprintingKeepsTheMeaning(doc: bytes, format: bool, maxSize: nat, render: Render)
    requires ParseDocument(doc, maxSize).Some? && Numeric(render)
    requires |Print(Rendered(ParseDocument(doc, maxSize).value, render), format, 0)| <= maxSize
    ensures var v := ParseDocument(doc, maxSize).value;
      var again := ParseDocument(Print(Rendered(v, render), format, 0), maxSize);
      && again == Some(Rendered(v, render))
      && (again == Some(v) <==> Reproduced(v, render))
      && (NoReals(v) ==> again == Some(v))
  {
    hide ParseValue, Print, Storable, Nesting, Rendered, Reproduced, NoReals, Numeric;
    var v := ParseDocument(doc, maxSize).value;
    ParsedValue(doc, DocStart(doc), 0);
    RenderedIsStorable(v, render);
    if NoReals(v) { WholeNumbersAreReproduced(v, render); }
    PrintedTextReadsBack(Rendered(v, render), format, maxSize);
  }

  /** Every number past the doubles is read, and comes back as null. */
  lemma InfinityIsWrittenAsNull(text: bytes, render: Render)
    requires IsRealText(text) && Overflows(text)
    ensures ParseDocument(text, |text|) == Some(Real(text))
    ensures ParseDocument(Print(Rendered(Real(text), render), false, 0), 4) == Some(Null)
  {
    hide ParseValue, IsRealText, Overflows;
    PrintedTextReadsBack(Real(text), false, |text|);
    PrintedTextReadsBack(Null, false, 4);
  }

  lemma MulRegroups(x: nat, y: nat, z: nat)
    ensures x * (y * z) == (x * y) * z
  {
  }

  lemma {:induction false} PowAdd(b: nat, m: nat, n: nat)
    ensures Pow(b, m + n) == Pow(b, m) * Pow(b, n)
    decreases m
  {
    if m > 0 {
      PowAdd(b, m - 1, n);
      MulRegroups(b, Pow(b, m - 1), Pow(b, n));
    }
  }

  lemma {:induction false} PowPositive(b: nat, n: nat)
    requires b > 0
    ensures Pow(b, n) > 0
    decreases n
  {
    if n > 0 { PowPositive(b, n - 1); }
  }

  lemma {:induction false} EightIsTwoCubed(n: nat)
    ensures Pow(8, n) == Pow(2, 3 * n)
    decreases n
  {
    if n > 0 {
      EightIsTwoCubed(n - 1);
      var k := 3 * n - 3;
      assert Pow(2, k + 1) == 2 * Pow(2, k) && Pow(2, k + 2) == 2 * Pow(2, k + 1);
    }
  }

  lemma MulGrows(a: nat, b: nat, x: nat, y: nat)
    requires a <= b && x <= y
    ensures a * x <= b * y
  {
    assert b * y - a * x == (b - a) * y + a * (y - x);
  }

  lemma {:induction false} PowGrows(a: nat, b: nat, n: nat)
    requires a <= b
    ensures Pow(a, n) <= Pow(b, n)
    decreases n
  {
    if n > 0 {
      PowGrows(a, b, n - 1);
      MulGrows(a, b, Pow(a, n - 1), Pow(b, n - 1));
    }
  }

  /** 1e999 is such a number. */
  lemma SuchANumber(t: bytes)
    requires t == [49, 101, 57, 57, 57]
    ensures IsRealText(t) && Overflows(t)
  {
    hide IsRealText, Decimal, Pow;
    TokenIsReal(t);
    TokenSpells(t);
    TooLarge(999, 970, 54);
  }

  /** 1.5 is cut to 1. */
  lemma OneAndAHalfCutsToOne(t: bytes)
    requires t == [49, 46, 53]
    ensures IsRealText(t) && CutsToOne(t)
  {
    hide Decimal, Reaches, FloatPrefix, ExponentLength;
    FractionSpells(t);
    var two := t[..2];
    assert two[..1] == t[..1] && NatOf(two) == None && NatOf(t) == None;
    CutsFifteenTenths(t, 53);
  }

  lemma FractionSpells(t: bytes)
    requires t == [49, 46, 53]
    ensures Decimal(t) == (15, -1) && FloatPrefix(t) == 3
  {
    assert DigitRun(t, 1) == 0 && DigitRun(t, 0) == 1 && DigitRun(t, 3) == 0 && DigitRun(t, 2) == 1;
    assert ExponentLength(t, 3) == 0;
    assert t[0..1] + t[2..3] == [49, 53] && [49, 53][..1] == [49] && [49][..0] == [];
    assert DigitsValue([49]) == 1 && DigitsValue([49, 53]) == 15;
  }

  lemma TenthsReach(t: bytes, m: nat, num: int, den: nat)
    requires Decimal(t) == (m, -1)
    ensures Reaches(t, num, den) <==> m * den >= num * 10
  {
    hide Decimal;
    assert Pow(10, 1) == 10 * Pow(10, 0);
  }

  lemma CutsFifteenTenths(t: bytes, n: nat)
    requires Decimal(t) == (15, -1) && n >= 2
    ensures Reaches(t, Pow(2, n + 1) - 1, Pow(2, n + 1)) && !Reaches(t, Pow(2, n + 1) - 1, Pow(2, n))
  {
    hide Decimal, Reaches;
    PowPositive(2, n - 2);
    assert Pow(2, n + 1) == 2 * Pow(2, n) && Pow(2, n) == 2 * Pow(2, n - 1) && Pow(2, n - 1) == 2 * Pow(2, n - 2);
    TenthsReach(t, 15, Pow(2, n + 1) - 1, Pow(2, n + 1));
    TenthsReach(t, 15, Pow(2, n + 1) - 1, Pow(2, n));
  }

  lemma Smaller(x: nat, y: nat, z: nat)
    requires y > 0 && z > 0
    ensures x * (y - 1) <= x * y <= (x * y) * z
  {
    MulGrows(x, x, y - 1, y);
    MulGrows(x * y, x * y, 1, z);
  }

  lemma TooLarge(n: nat, a: nat, b: nat)
    requires 3 * n >= a + b
    ensures Pow(2, b) > 0 && 1 * Pow(10, n) * 1 >= Pow(2, a) * (Pow(2, b) - 1)
  {
    hide Pow;
    PowGrows(8, 10, n);
    EightIsTwoCubed(n);
    PowAdd(2, a + b, 3 * n - a - b);
    PowAdd(2, a, b);
    PowPositive(2, 3 * n - a - b);
    PowPositive(2, a);
    PowPositive(2, b);
    Smaller(Pow(2, a), Pow(2, b), Pow(2, 3 * n - a - b));
  }

  lemma TokenSpells(t: bytes)
    requires t == [49, 101, 57, 57, 57]
    ensures Decimal(t) == (1, 999)
  {
    assert DigitRun(t, 1) == 0 && DigitRun(t, 0) == 1;
    assert DigitRun(t, 4) == 1 && DigitRun(t, 3) == 2 && DigitRun(t, 2) == 3;
    assert ExponentLength(t, 1) == 4;
    assert t[0..1] + t[1..1] == [49] && [49][..0] == [];
    assert DigitsValue([49]) == 1;
    var e := t[2..5];
    assert e == [57, 57, 57] && e[..2] == [57, 57] && [57, 57][..1] == [57] && [57][..0] == [];
    assert DigitsValue([57]) == 9 && DigitsValue([57, 57]) == 99 && DigitsValue(e) == 999;
  }

  lemma TokenIsReal(t: bytes)
    requires t == [49, 101, 57, 57, 57]
    ensures IsRealText(t)
  {
    assert DigitRun(t, 4) == 1 && DigitRun(t, 3) == 2 && DigitRun(t, 2) == 3 && DigitRun(t, 1) == 0
        && DigitRun(t, 0) == 1;
    assert ExponentLength(t, 1) == 4;
    var two := t[..2];
    assert two[..1] == t[..1] && NatOf(two) == None;
    var three := t[..3];
    assert three[..2] == two && NatOf(three) == None;
    var four := t[..4];
    assert four[..3] == three && NatOf(four) == None;
    assert NatOf(t) == None;
  }

  // ----- the bytes printing uses -----

  predicate AtLeast(t: bytes, low: byte) {
    forall i :: 0 <= i < |t| ==> t[i] >= low
  }

  /** The smallest byte that output can hold: line feeds and tabs appear only when it is formatted. */
  function Lowest(format: bool): byte { if format then TAB else SPACE }

  lemma {:induction false} EscapedBytes(s: bytes)
    ensures AtLeast(Escape(s), SPACE)
  {
    if s != [] { EscapedBytes(s[1..]); }
  }

  /** Output holds no control byte, but for the line feeds and tabs of formatted output. */
  lemma {:induction false} PrintedBytes(v: Json, format: bool, depth: nat)
    requires Storable(v)
    ensures AtLeast(Print(v, format, depth), Lowest(format))
    decreases v, 1
  {
    hide PrintItems, PrintMembers, StorableItems, StorableMembers;
    if v.Array? {
      PrintedItemsBytes(v.items, format, depth + 1);
    } else if v.Object? {
      PrintedMembersBytes(v.members, format, depth + 1);
    } else {
      ScalarBytes(v, format, depth);
    }
  }

  lemma ScalarBytes(v: Json, format: bool, depth: nat)
    requires Storable(v) && !v.Array? && !v.Object?
    ensures AtLeast(Print(v, format, depth), SPACE)
  {
    hide Escape, PrintInt, PrintMembers, PrintItems, StorableItems, StorableMembers, FloatPrefix, NumberValue;
    if v.String? { EscapedBytes(v.s); }
    if v.Integer? { IntText(v.i); }
  }

  lemma {:induction false} PrintedItemsBytes(items: seq<Json>, format: bool, depth: nat)
    requires StorableItems(items)
    ensures AtLeast(PrintItems(items, format, depth), Lowest(format))
    decreases items, 0
  {
    hide Print, Storable;
    if items != [] {
      PrintedBytes(items[0], format, depth);
      PrintedItemsBytes(items[1..], format, depth);
    }
  }

  lemma {:induction false} PrintedMembersBytes(members: seq<Member>, format: bool, depth: nat)
    requires StorableMembers(members)
    ensures AtLeast(PrintMembers(members, format, depth), Lowest(format))
    decreases members, 0
  {
    if members != [] {
      hide Print, Storable, KeyText, MemberEnd;
      KeyBytes(members[0].key, format, depth);
      PrintedBytes(members[0].value, format, depth);
      MemberEndBytes(|members| == 1, format);
      PrintedMembersBytes(members[1..], format, depth);
    }
  }

  lemma KeyBytes(key: bytes, format: bool, depth: nat)
    ensures AtLeast(KeyText(key, format, depth), Lowest(format))
  {
    hide Escape;
    EscapedBytes(key);
  }

  lemma MemberEndBytes(last: bool, format: bool)
    ensures AtLeast(MemberEnd(last, format), Lowest(format))
  {
  }

  /** Unformatted output holds no line feed. */
  lemma UnformattedIsOneLine(v: Json)
    requires Storable(v)
    ensures LF !in Print(v, false, 0)
  {
    hide Print, Storable;
    PrintedBytes(v, false, 0);
  }

  // ----- a text that parses keeps its meaning when more text follows -----

  lemma {:induction false} CloseQuoteStable(buf: bytes, more: bytes, i: nat)
    requires CloseQuote(buf, i).Some?
    ensures CloseQuote(buf + more, i) == CloseQuote(buf, i)
    decreases |buf| - i
  {
    if buf[i] == QUOTE {
    } else if buf[i] == BACKSLASH {
      CloseQuoteStable(buf, more, i + 2);
    } else {
      CloseQuoteStable(buf, more, i + 1);
    }
  }

  lemma EscapeStable(buf: bytes, more: bytes, i: nat, end: nat)
    requires i < end < |buf| && buf[i] == BACKSLASH
    ensures EscapeAt(buf + more, i, end) == EscapeAt(buf, i, end)
  {
    hide Utf8;
    if end - i >= 6 { assert Hex4(buf + more, i + 2) == Hex4(buf, i + 2); }
    if end - i >= 12 { assert Hex4(buf + more, i + 8) == Hex4(buf, i + 8); }
  }

  lemma {:induction false} UnescapeStable(buf: bytes, more: bytes, i: nat, end: nat)
    requires end < |buf|
    ensures Unescape(buf + more, i, end) == Unescape(buf, i, end)
    decreases |buf| - i
  {
    hide EscapeAt;
    if i >= end {
    } else if buf[i] != BACKSLASH {
      UnescapeStable(buf, more, i + 1, end);
    } else {
      EscapeStable(buf, more, i, end);
      if EscapeAt(buf, i, end).Some? { UnescapeStable(buf, more, i + EscapeAt(buf, i, end).value.used, end); }
    }
  }

  lemma StringStable(buf: bytes, more: bytes, off: nat)
    requires ParseString(buf, off).Done?
    ensures ParseString(buf + more, off) == ParseString(buf, off)
  {
    hide Unescape, CloseQuote;
    CloseQuoteStable(buf, more, off + 1);
    UnescapeStable(buf, more, off + 1, CloseQuote(buf, off + 1).value);
  }

  /** The run of number bytes at `off` is cut short by its limit or by another byte, not by the end of the text. */
  lemma {:induction false} RunStable(buf: bytes, more: bytes, off: nat, room: nat, n: nat)
    requires off <= n < |buf| && !IsNumberByte(buf[n])
    ensures NumberRun(buf + more, off, room) == NumberRun(buf, off, room)
    ensures off + NumberRun(buf, off, room) <= n
    decreases room
  {
    if room > 0 && IsNumberByte(buf[off]) { RunStable(buf, more, off + 1, room - 1, n); }
  }

  lemma NumberStable(buf: bytes, more: bytes, off: nat)
    requires off < |buf| && ParseNumber(buf, off).Done? && ParseNumber(buf, off).next < |buf|
    requires !IsNumberByte(buf[ParseNumber(buf, off).next])
    ensures ParseNumber(buf + more, off) == ParseNumber(buf, off)
  {
    hide FloatPrefix, NumberValue;
    var n := NumberRun(buf, off, 63);
    RunStable(buf, more, off, 63, ParseNumber(buf, off).next);
    assert (buf + more)[off..off + n] == buf[off..off + n];
  }

  lemma {:induction false} NonBlankStable(buf: bytes, more: bytes, off: nat)
    requires off <= |buf| && NonBlank(buf, off) < |buf|
    ensures NonBlank(buf + more, off) == NonBlank(buf, off)
    decreases |buf| - off
  {
    if buf[off] <= 32 { NonBlankStable(buf, more, off + 1); }
  }

  lemma SkipStable(buf: bytes, more: bytes, off: nat)
    requires SkipBlanks(buf, off) < |buf| && buf[SkipBlanks(buf, off)] > 32
    ensures SkipBlanks(buf + more, off) == SkipBlanks(buf, off)
    ensures off < |buf| && (SkipBlanks(buf, off) == off || buf[off] <= 32)
  {
    NonBlankStable(buf, more, off);
  }

  lemma KeywordStable(buf: bytes, more: bytes, off: nat, t: bytes)
    requires off < |buf| && t != []
    ensures TextAt(buf, off, t) ==> TextAt(buf + more, off, t)
    ensures TextAt(buf + more, off, t) && off + |t| <= |buf| ==> TextAt(buf, off, t)
    ensures TextAt(buf + more, off, t) ==> buf[off] == t[0]
  {
    if TextAt(buf + more, off, t) {
      TextByte(buf + more, off, t, 0);
      if off + |t| <= |buf| {
        forall i | 0 <= i < |t| ensures buf[off + i] == t[i] { TextByte(buf + more, off, t, i); }
      }
    }
  }

  /** The value at `off` cannot be a number that the end of the text might have cut. */
  predicate Settled(buf: bytes, off: nat, next: nat) {
    off < |buf| && ((buf[off] != MINUS && !IsDigit(buf[off])) || (next < |buf| && !IsNumberByte(buf[next])))
  }

  lemma KeywordsStable(buf: bytes, more: bytes, off: nat, depth: nat)
    requires ParseValue(buf, off, depth).Done?
    ensures TextAt(buf + more, off, TEXT_NULL) == TextAt(buf, off, TEXT_NULL)
    ensures TextAt(buf + more, off, TEXT_FALSE) == TextAt(buf, off, TEXT_FALSE)
    ensures TextAt(buf + more, off, TEXT_TRUE) == TextAt(buf, off, TEXT_TRUE)
  {
    hide TextAt, ParseArray, ParseObject, ParseNumber, ParseString;
    KeywordStable(buf, more, off, TEXT_NULL);
    KeywordStable(buf, more, off, TEXT_FALSE);
    KeywordStable(buf, more, off, TEXT_TRUE);
  }

  lemma ValueStart(buf: bytes, off: nat, depth: nat)
    requires ParseValue(buf, off, depth).Done?
    ensures off < |buf| && buf[off] > 32
  {
    hide TextAt, ParseArray, ParseObject, ParseNumber, ParseString;
    if TextAt(buf, off, TEXT_NULL) { TextByte(buf, off, TEXT_NULL, 0); }
    if TextAt(buf, off, TEXT_FALSE) { TextByte(buf, off, TEXT_FALSE, 0); }
    if TextAt(buf, off, TEXT_TRUE) { TextByte(buf, off, TEXT_TRUE, 0); }
  }

  lemma {:induction false} ValueStable(buf: bytes, more: bytes, off: nat, depth: nat)
    requires ParseValue(buf, off, depth).Done? && Settled(buf, off, ParseValue(buf, off, depth).next)
    ensures ParseValue(buf + more, off, depth) == ParseValue(buf, off, depth)
    decreases |buf| - off, 2
  {
    hide TextAt, ParseArray, ParseObject, ParseNumber, ParseString;
    KeywordsStable(buf, more, off, depth);
    if TextAt(buf, off, TEXT_NULL) || TextAt(buf, off, TEXT_FALSE) || TextAt(buf, off, TEXT_TRUE) {
    } else if buf[off] == QUOTE {
      StringStable(buf, more, off);
    } else if buf[off] == MINUS || IsDigit(buf[off]) {
      NumberStable(buf, more, off);
    } else if buf[off] == OPEN_ARRAY {
      ArrayStable(buf, more, off, depth);
    } else {
      ObjectStable(buf, more, off, depth);
    }
  }

  lemma {:induction false} ArrayStable(buf: bytes, more: bytes, off: nat, depth: nat)
    requires off < |buf| && ParseArray(buf, off, depth).Done?
    ensures ParseArray(buf + more, off, depth) == ParseArray(buf, off, depth)
    decreases |buf| - off, 1
  {
    hide ParseItems, SkipBlanks;
    var at := SkipBlanks(buf, off + 1);
    if !ByteAt(buf, at, CLOSE_ARRAY) {
      ItemsStart(buf, at, depth + 1);
      ItemsStable(buf, more, at, depth + 1);
    }
    SkipStable(buf, more, off + 1);
  }

  lemma ItemsStart(buf: bytes, off: nat, depth: nat)
    requires ParseItems(buf, off, depth).Done?
    ensures off < |buf| && buf[off] > 32
  {
    hide ParseValue, SkipBlanks;
    ValueStart(buf, off, depth);
  }

  lemma {:induction false} ItemsStable(buf: bytes, more: bytes, off: nat, depth: nat)
    requires ParseItems(buf, off, depth).Done? && ByteAt(buf, ParseItems(buf, off, depth).next, CLOSE_ARRAY)
    ensures ParseItems(buf + more, off, depth) == ParseItems(buf, off, depth)
    decreases |buf| - off, 3
  {
    hide ParseValue, SkipBlanks;
    ValueStart(buf, off, depth);
    var next := ParseValue(buf, off, depth).next;
    var at := SkipBlanks(buf, next);
    SkipStable(buf, more, next);
    ValueStable(buf, more, off, depth);
    if ByteAt(buf, at, COMMA) {
      var start := SkipBlanks(buf, at + 1);
      ItemsStart(buf, start, depth);
      ItemsStable(buf, more, start, depth);
      SkipStable(buf, more, at + 1);
    }
  }

  lemma {:induction false} ObjectStable(buf: bytes, more: bytes, off: nat, depth: nat)
    requires off < |buf| && ParseObject(buf, off, depth).Done?
    ensures ParseObject(buf + more, off, depth) == ParseObject(buf, off, depth)
    decreases |buf| - off, 1
  {
    hide ParseMembers, SkipBlanks;
    var at := SkipBlanks(buf, off + 1);
    if !ByteAt(buf, at, CLOSE_OBJECT) {
      MembersStart(buf, at, depth + 1);
      MembersStable(buf, more, at, depth + 1);
    }
    SkipStable(buf, more, off + 1);
  }

  lemma MembersStart(buf: bytes, off: nat, depth: nat)
    requires ParseMembers(buf, off, depth).Done?
    ensures off < |buf| && buf[off] > 32
  {
    hide ParseValue, SkipBlanks;
  }

  lemma {:induction false} MembersStable(buf: bytes, more: bytes, off: nat, depth: nat)
    requires ParseMembers(buf, off, depth).Done? && ByteAt(buf, ParseMembers(buf, off, depth).next, CLOSE_OBJECT)
    ensures ParseMembers(buf + more, off, depth) == ParseMembers(buf, off, depth)
    decreases |buf| - off, 3
  {
    hide ParseValue, SkipBlanks, ParseString;
    StringStable(buf, more, off);
    var afterKey := ParseString(buf, off).next;
    var colon := SkipBlanks(buf, afterKey);
    SkipStable(buf, more, afterKey);
    var start := SkipBlanks(buf, colon + 1);
    ValueStart(buf, start, depth);
    SkipStable(buf, more, colon + 1);
    var next := ParseValue(buf, start, depth).next;
    var at := SkipBlanks(buf, next);
    SkipStable(buf, more, next);
    ValueStable(buf, more, start, depth);
    if ByteAt(buf, at, COMMA) {
      MembersStart(buf, SkipBlanks(buf, at + 1), depth);
      MembersStable(buf, more, SkipBlanks(buf, at + 1), depth);
      SkipStable(buf, more, at + 1);
    }
  }

  /** No proper prefix of a printed object or array parses, so a torn record is never taken for a whole one. */
  lemma PrefixOfPrintedFails(v: Json, format: bool, n: nat, maxSize: nat)
    requires (v.Object? || v.Array?) && Storable(v) && Nesting(v) <= NESTING_LIMIT
    requires n < |Print(v, format, 0)|
    ensures ParseDocument(Print(v, format, 0)[..n], maxSize) == None
  {
    hide ParseValue, Print, Storable, Nesting, SkipBlanks;
    var whole := Print(v, format, 0);
    var part := whole[..n];
    ContainerStart(v, format, 0);
    assert ParseValue(whole, 0, 0) == Done(v, |whole|) by { ValueReads(whole, 0, v, format, 0); }
    if n > 0 && ParseDocument(part, maxSize).Some? {
      SkipTo(part, 0, 0);
      assert part + whole[n..] == whole;
      ValueStable(part, whole[n..], 0, 0);
      assert false;
    }
  }

  lemma ContainerStart(v: Json, format: bool, depth: nat)
    requires v.Object? || v.Array?
    ensures |Print(v, format, depth)| > 0 && Print(v, format, depth)[0] in [OPEN_OBJECT, OPEN_ARRAY]
  {
  }
}
