/** Whatever CJsonSpec's reader takes is a text of CJsonGrammar that writes the tree it returns. */
module CJsonWritten {
  import opened Bytes
  import opened CJsonSpec
  import opened CJsonLaws
  import opened CJsonReading
  import G = CJsonGrammar

  lemma TextJoin(buf: bytes, off: nat, a: bytes, b: bytes)
    requires TextAt(buf, off, a) && TextAt(buf, off + |a|, b)
    ensures TextAt(buf, off, a + b)
  {
    forall i | 0 <= i < |a + b| ensures buf[off + i] == (a + b)[i] {
      if i >= |a| { assert buf[off + |a| + (i - |a|)] == b[i - |a|]; }
    }
  }

  lemma TextIs(buf: bytes, i: nat, j: nat)
    requires i <= j <= |buf|
    ensures TextAt(buf, i, buf[i..j])
  {
  }

  /** Bytes that are no backslash do not matter to what is escaped. */
  lemma {:induction false} CleanOn(buf: bytes, i: nat, j: nat)
    requires G.CleanEscapes(buf, i) && i <= j <= |buf| && forall k :: i <= k < j ==> buf[k] != BACKSLASH
    ensures G.CleanEscapes(buf, j)
    decreases j - i
  {
    if i < j { CleanOn(buf, i + 1, j); }
  }

  // ----- strings -----

  lemma HexIsPlainText(buf: bytes, i: nat)
    requires i + 4 <= |buf| && G.IsHex(buf[i..i + 4])
    ensures CloseQuote(buf, i) == CloseQuote(buf, i + 4)
    ensures forall k :: i <= k < i + 4 ==> buf[k] != BACKSLASH && buf[k] != QUOTE
    ensures TextAt(buf, i, buf[i..i + 4])
  {
    var h := buf[i..i + 4];
    assert G.Digit(h[0]).Some? && G.Digit(h[1]).Some? && G.Digit(h[2]).Some? && G.Digit(h[3]).Some?;
    assert h[0] == buf[i] && h[1] == buf[i + 1] && h[2] == buf[i + 2] && h[3] == buf[i + 3];
    assert CloseQuote(buf, i) == CloseQuote(buf, i + 1) == CloseQuote(buf, i + 2);
    assert CloseQuote(buf, i + 2) == CloseQuote(buf, i + 3) == CloseQuote(buf, i + 4);
  }

  /** The escape at `i`, as a character. */
  lemma EscapeWritten(buf: bytes, i: nat, end: nat) returns (c: G.Char)
    requires i < end < |buf| && buf[i] == BACKSLASH && EscapeAt(buf, i, end).Some?
    requires CloseQuote(buf, i) == Some(end) && G.CleanEscapes(buf, i)
    ensures G.WellChar(c) && TextAt(buf, i, G.SpellChar(c)) && 0 < |G.SpellChar(c)| && i + |G.SpellChar(c)| <= end
    ensures EscapeAt(buf, i, end) == Some(Piece(G.CharBytes(c), |G.SpellChar(c)|))
    ensures CloseQuote(buf, i + |G.SpellChar(c)|) == Some(end) && G.CleanEscapes(buf, i + |G.SpellChar(c)|)
  {
    hide EscapeAt, G.CharBytes;
    if buf[i + 1] != 'u' as int {
      LetterWritten(buf, i, end);
      c := G.Letter(buf[i + 1]);
    } else {
      c := UnicodeWritten(buf, i, end);
    }
    CharEscapeReads(buf, i, c, end);
  }

  lemma LetterWritten(buf: bytes, i: nat, end: nat)
    requires i < end < |buf| && buf[i] == BACKSLASH && buf[i + 1] != 'u' as int && EscapeAt(buf, i, end).Some?
    requires CloseQuote(buf, i) == Some(end) && G.CleanEscapes(buf, i)
    ensures var c := G.Letter(buf[i + 1]);
      && G.WellChar(c) && TextAt(buf, i, G.SpellChar(c)) && i + 2 <= end
      && CloseQuote(buf, i + 2) == Some(end) && G.CleanEscapes(buf, i + 2)
  {
    assert CloseQuote(buf, i + 2) == Some(end);
  }

  lemma UnicodeWritten(buf: bytes, i: nat, end: nat) returns (c: G.Char)
    requires i + 1 < end < |buf| && buf[i] == BACKSLASH && buf[i + 1] == 'u' as int && EscapeAt(buf, i, end).Some?
    requires CloseQuote(buf, i) == Some(end) && G.CleanEscapes(buf, i)
    ensures G.WellChar(c) && !c.Plain? && TextAt(buf, i, G.SpellChar(c)) && 0 < |G.SpellChar(c)|
    ensures i + |G.SpellChar(c)| <= end
    ensures CloseQuote(buf, i + |G.SpellChar(c)|) == Some(end) && G.CleanEscapes(buf, i + |G.SpellChar(c)|)
  {
    hide Utf8, Hex4, HexValue, CloseQuote, G.CleanEscapes, G.IsHex, G.Code, TextAt;
    var hex := buf[i + 2..i + 6];
    UnitWritten(buf, i, end);
    if 0xd800 <= G.Code(hex) <= 0xdfff {
      PairFollows(buf, i, end);
      UnitWritten(buf, i + 6, end);
      var low := buf[i + 8..i + 12];
      c := G.Pair(hex, low);
      TextJoin(buf, i, [BACKSLASH, 'u' as int] + hex, [BACKSLASH, 'u' as int] + low);
      assert G.SpellChar(c) == ([BACKSLASH, 'u' as int] + hex) + ([BACKSLASH, 'u' as int] + low);
    } else {
      c := G.Unit(hex);
    }
  }

  lemma PairFollows(buf: bytes, i: nat, end: nat)
    requires i + 6 <= end < |buf| && buf[i] == BACKSLASH && buf[i + 1] == 'u' as int && EscapeAt(buf, i, end).Some?
    requires 0xd800 <= Hex4(buf, i + 2) <= 0xdfff
    ensures Hex4(buf, i + 2) <= 0xdbff && i + 12 <= end && buf[i + 6] == BACKSLASH && buf[i + 7] == 'u' as int
    ensures 0xdc00 <= Hex4(buf, i + 8) <= 0xdfff
  {
    hide Utf8, Hex4;
  }

  /** A \\u and its four digits. */
  lemma UnitWritten(buf: bytes, i: nat, end: nat)
    requires i + 1 < end < |buf| && buf[i] == BACKSLASH && buf[i + 1] == 'u' as int
    requires CloseQuote(buf, i) == Some(end) && G.CleanEscapes(buf, i)
    ensures i + 6 <= end && G.IsHex(buf[i + 2..i + 6]) && Hex4(buf, i + 2) == G.Code(buf[i + 2..i + 6])
    ensures TextAt(buf, i, [BACKSLASH, 'u' as int] + buf[i + 2..i + 6])
    ensures CloseQuote(buf, i + 6) == Some(end) && G.CleanEscapes(buf, i + 6)
  {
    hide Hex4, HexValue, G.IsHex, G.Code;
    HexIsPlainText(buf, i + 2);
    HexReads(buf, i + 2, buf[i + 2..i + 6]);
    CleanOn(buf, i + 2, i + 6);
    TextJoin(buf, i, [BACKSLASH, 'u' as int], buf[i + 2..i + 6]);
  }

  lemma {:induction false} CharsWritten(buf: bytes, i: nat, end: nat) returns (cs: seq<G.Char>)
    requires CloseQuote(buf, i) == Some(end) && Unescape(buf, i, end).Some? && G.CleanEscapes(buf, i)
    ensures G.WellString(cs) && TextAt(buf, i, G.SpellChars(cs)) && i + |G.SpellChars(cs)| == end
    ensures Unescape(buf, i, end) == Some(G.Meaning(cs)) && G.CleanEscapes(buf, end)
    decreases end - i
  {
    hide EscapeAt, G.WellChar, G.CharBytes, G.SpellChar, TextAt;
    if i == end {
      cs := [];
      NothingHere(buf, i);
    } else {
      var c;
      if buf[i] == BACKSLASH {
        c := EscapeWritten(buf, i, end);
      } else {
        c := G.Plain(buf[i]);
        PlainWritten(buf, i);
      }
      var n := |G.SpellChar(c)|;
      var rest := CharsWritten(buf, i + n, end);
      cs := [c] + rest;
      assert cs[1..] == rest;
      TextJoin(buf, i, G.SpellChar(c), G.SpellChars(rest));
    }
  }

  lemma NothingHere(buf: bytes, i: nat)
    requires i <= |buf|
    ensures TextAt(buf, i, [])
  {
  }

  lemma PlainWritten(buf: bytes, i: nat)
    requires i < |buf| && buf[i] != BACKSLASH && buf[i] != QUOTE
    ensures G.WellChar(G.Plain(buf[i])) && TextAt(buf, i, G.SpellChar(G.Plain(buf[i])))
    ensures G.SpellChar(G.Plain(buf[i])) == [buf[i]] == G.CharBytes(G.Plain(buf[i]))
  {
  }

  lemma StringWritten(buf: bytes, off: nat) returns (cs: seq<G.Char>)
    requires ParseString(buf, off).Done? && G.CleanEscapes(buf, off)
    ensures G.WellString(cs) && TextAt(buf, off, G.SpellString(cs))
    ensures ParseString(buf, off) == Done(G.StringOf(cs), off + |G.SpellString(cs)|)
    ensures G.CleanEscapes(buf, off + |G.SpellString(cs)|)
  {
    hide CloseQuote, Unescape, G.SpellChars, G.WellChar, G.Meaning, Find;
    CleanOn(buf, off, off + 1);
    var end := CloseQuote(buf, off + 1).value;
    cs := CharsWritten(buf, off + 1, end);
    var body := G.SpellChars(cs);
    TextJoin(buf, off + 1, body, [QUOTE]);
    TextJoin(buf, off, [QUOTE], body + [QUOTE]);
    CleanOn(buf, end, end + 1);
  }

  // ----- numbers -----

  lemma {:induction false} RunIsDigits(s: bytes, i: nat)
    requires i <= |s|
    ensures i + DigitRun(s, i) <= |s| && G.Digits(s[i..i + DigitRun(s, i)])
    decreases |s| - i
  {
    if i < |s| && IsDigit(s[i]) {
      RunIsDigits(s, i + 1);
      var n := DigitRun(s, i);
      assert s[i..i + n] == [s[i]] + s[i + 1..i + 1 + (n - 1)];
    }
  }

  /** The exponent that ends a number. */
  lemma ExponentWritten(t: bytes, i: nat) returns (e: Option<G.Exponent>)
    requires i <= |t| && i + ExponentLength(t, i) == |t|
    ensures e.None? ==> i == |t|
    ensures e.Some? ==>
      && (e.value.marker == 'e' as int || e.value.marker == 'E' as int)
      && (e.value.sign == [] || e.value.sign == ['+' as int] || e.value.sign == ['-' as int])
      && e.value.digits != [] && G.Digits(e.value.digits) && t[i..] == G.SpellExponent(e.value)
  {
    hide DigitRun, G.Digits;
    if ExponentLength(t, i) == 0 {
      e := None;
    } else {
      var sign := if i + 1 < |t| && (t[i + 1] == MINUS || t[i + 1] == 43) then 1 else 0;
      var from := i + 1 + sign;
      RunIsDigits(t, from);
      assert from + DigitRun(t, from) == |t|;
      assert t[from..] == t[from..from + DigitRun(t, from)];
      var x := G.Exponent(t[i], t[i + 1..from], t[from..]);
      assert x.sign == if sign == 1 then [t[i + 1]] else [];
      assert t[i + 1..] == x.sign + x.digits;
      assert t[i..] == [t[i]] + t[i + 1..];
      e := Some(x);
    }
  }

  lemma FourSlices(t: bytes, i: nat, j: nat, k: nat)
    requires i <= j <= k <= |t|
    ensures t == t[..i] + (t[i..j] + (t[j..k] + t[k..]))
  {
  }

  /** What reading a token as one number says of it. */
  lemma TokenParts(t: bytes) returns (dot: nat, mantissa: nat)
    requires 0 < |t| && FloatPrefix(t) == |t| && (t[0] == MINUS || IsDigit(t[0]))
    ensures var sign := if t[0] == MINUS then 1 else 0;
      && sign <= dot <= mantissa <= |t| && dot == sign + DigitRun(t, sign)
      && (dot > sign || mantissa > dot + 1) && (dot == mantissa
          || (t[dot] == 46 && mantissa == dot + 1 + DigitRun(t, dot + 1)))
      && mantissa + ExponentLength(t, mantissa) == |t|
      && (dot == sign ==> t[0] == MINUS)
  {
    hide ExponentLength;
    var sign := if t[0] == MINUS then 1 else 0;
    dot := sign + DigitRun(t, sign);
    mantissa := if dot < |t| && t[dot] == 46 then dot + 1 + DigitRun(t, dot + 1) else dot;
  }

  /** A number from its parts in a token. */
  function Cut(t: bytes, dot: nat, mantissa: nat, exp: Option<G.Exponent>): G.Num
    requires t != [] && (if t[0] == MINUS then 1 else 0) <= dot <= mantissa <= |t|
  {
    G.Num(t[0] == MINUS, t[if t[0] == MINUS then 1 else 0..dot],
          if dot < mantissa then Some(t[dot + 1..mantissa]) else None, exp)
  }

  lemma CutSpells(t: bytes, dot: nat, mantissa: nat, exp: Option<G.Exponent>)
    requires t != [] && (if t[0] == MINUS then 1 else 0) <= dot <= mantissa <= |t|
    requires dot < mantissa ==> t[dot] == 46
    requires match exp case None => mantissa == |t| case Some(e) => t[mantissa..] == G.SpellExponent(e)
    ensures G.SpellNum(Cut(t, dot, mantissa, exp)) == t
  {
    hide G.SpellExponent, G.SpellNum;
    var n := Cut(t, dot, mantissa, exp);
    NumText(n);
    assert ExpText(n) == t[mantissa..];
    assert FracText(n) == t[dot..mantissa];
    var sign := if t[0] == MINUS then 1 else 0;
    FourSlices(t, sign, dot, mantissa);
    assert t[..sign] == if n.minus then [MINUS] else [];
  }

  /** A token that is read as one number. */
  lemma TokenWritten(t: bytes) returns (n: G.Num)
    requires 0 < |t| <= 63 && FloatPrefix(t) == |t| && (t[0] == MINUS || IsDigit(t[0]))
    ensures G.WellNum(n) && G.SpellNum(n) == t
  {
    hide ExponentLength, DigitRun, G.SpellExponent, FloatPrefix, G.Digits, G.SpellNum;
    var dot, mantissa := TokenParts(t);
    RunIsDigits(t, if t[0] == MINUS then 1 else 0);
    if dot < mantissa { RunIsDigits(t, dot + 1); }
    var exp := ExponentWritten(t, mantissa);
    n := Cut(t, dot, mantissa, exp);
    CutSpells(t, dot, mantissa, exp);
  }

  lemma NumberWritten(buf: bytes, off: nat) returns (n: G.Num)
    requires off < |buf| && (buf[off] == MINUS || IsDigit(buf[off])) && ParseNumber(buf, off).Done?
    requires G.CleanEscapes(buf, off)
    ensures G.WellNum(n) && TextAt(buf, off, G.SpellNum(n))
    ensures ParseNumber(buf, off) == Done(G.NumOf(n), off + |G.SpellNum(n)|)
    ensures G.CleanEscapes(buf, off + |G.SpellNum(n)|)
  {
    hide FloatPrefix, G.SpellNum, G.NumOf, NumberValue, G.WellNum, TextAt;
    var run := buf[off..off + NumberRun(buf, off, 63)];
    var t := run[..FloatPrefix(run)];
    FloatPrefixAgain(run);
    assert t[0] == buf[off];
    n := TokenWritten(t);
    NumberMeans(n);
    NumberBytes(n);
    TextIs(buf, off, off + |t|);
    assert buf[off..off + |t|] == t;
    forall k | off <= k < off + |t| ensures buf[k] != BACKSLASH { assert buf[k] == t[k - off]
        && IsNumberByte(t[k - off]); }
    CleanOn(buf, off, off + |t|);
  }

  // ----- blanks -----

  lemma PadWritten(buf: bytes, i: nat) returns (pad: bytes)
    requires i <= |buf| && SkipBlanks(buf, i) < |buf| && buf[SkipBlanks(buf, i)] > 32 && G.CleanEscapes(buf, i)
    ensures G.Blank(pad) && TextAt(buf, i, pad) && SkipBlanks(buf, i) == i + |pad|
    ensures G.CleanEscapes(buf, i + |pad|)
  {
    var at := SkipBlanks(buf, i);
    assert at == NonBlank(buf, i);
    pad := buf[i..at];
    TextIs(buf, i, at);
    CleanOn(buf, i, at);
  }

  lemma StartsWithNoBlank(buf: bytes, off: nat, depth: nat)
    requires ParseValue(buf, off, depth).Done?
    ensures off < |buf| && buf[off] > 32
  {
    hide ParseString, ParseNumber, ParseArray, ParseObject;
    assert TextAt(buf, off, TEXT_NULL) ==> buf[off + 0] == TEXT_NULL[0];
    assert TextAt(buf, off, TEXT_FALSE) ==> buf[off + 0] == TEXT_FALSE[0];
    assert TextAt(buf, off, TEXT_TRUE) ==> buf[off + 0] == TEXT_TRUE[0];
  }

  // ----- values -----

  lemma WordWritten(buf: bytes, off: nat, v: Json)
    requires v == Null || v == False || v == True
    requires TextAt(buf, off, Print(v, false, 0)) && G.CleanEscapes(buf, off)
    ensures G.Well(G.Word(v)) && TextAt(buf, off, G.Spell(G.Word(v))) && |G.Spell(G.Word(v))| == |Print(v, false, 0)|
    ensures G.CleanEscapes(buf, off + |G.Spell(G.Word(v))|)
  {
    WordsStart(v);
    var t := Print(v, false, 0);
    forall k | off <= k < off + |t| ensures buf[k] != BACKSLASH { assert buf[off + (k - off)] == t[k - off]; }
    CleanOn(buf, off, off + |t|);
  }

  lemma {:induction false} ValueWritten(buf: bytes, off: nat, depth: nat) returns (w: G.Value)
    requires ParseValue(buf, off, depth).Done? && G.CleanEscapes(buf, off) && depth <= NESTING_LIMIT
    ensures G.Well(w) && TextAt(buf, off, G.Spell(w)) && depth + G.Levels(w) <= NESTING_LIMIT
    ensures ParseValue(buf, off, depth) == Done(G.Tree(w), off + |G.Spell(w)|)
    ensures G.CleanEscapes(buf, off + |G.Spell(w)|)
    decreases |buf| - off, 2
  {
    hide TextAt, ParseString, ParseNumber, ParseArray, ParseObject, G.CleanEscapes, G.SpellNum, G.NumOf, G.WellNum,
        G.SpellString, G.StringOf, G.WellString;
    StartsWithNoBlank(buf, off, depth);
    if TextAt(buf, off, TEXT_NULL) {
      WordWritten(buf, off, Null);
      w := G.Word(Null);
    } else if TextAt(buf, off, TEXT_FALSE) {
      WordWritten(buf, off, False);
      w := G.Word(False);
    } else if TextAt(buf, off, TEXT_TRUE) {
      WordWritten(buf, off, True);
      w := G.Word(True);
    } else if buf[off] == QUOTE {
      var cs := StringWritten(buf, off);
      w := G.Text(cs);
    } else if buf[off] == MINUS || IsDigit(buf[off]) {
      var n := NumberWritten(buf, off);
      w := G.Number(n);
    } else if buf[off] == OPEN_ARRAY {
      w := ListWritten(buf, off, depth);
    } else {
      w := RecordWritten(buf, off, depth);
    }
  }

  lemma ListFrom(open: bytes, items: seq<G.Item>, depth: nat)
    requires G.Blank(open) && (items != [] ==> open == []) && G.WellItems(items)
        && depth + 1 + G.ItemLevels(items) <= NESTING_LIMIT
    ensures var w := G.List(open, items);
      && G.Well(w) && G.Tree(w) == Array(G.Trees(items)) && depth + G.Levels(w) <= NESTING_LIMIT
      && G.Spell(w) == [OPEN_ARRAY] + (open + (G.SpellItems(items) + [CLOSE_ARRAY]))
  {
    hide G.SpellItems, G.WellItems, G.Trees, G.ItemLevels, G.Blank;
  }

  lemma {:induction false} ListWritten(buf: bytes, off: nat, depth: nat) returns (w: G.Value)
    requires off < |buf| && buf[off] == OPEN_ARRAY && ParseArray(buf, off, depth).Done?
    requires G.CleanEscapes(buf, off) && depth <= NESTING_LIMIT
    ensures G.Well(w) && TextAt(buf, off, G.Spell(w)) && depth + G.Levels(w) <= NESTING_LIMIT
    ensures ParseArray(buf, off, depth) == Done(G.Tree(w), off + |G.Spell(w)|)
    ensures G.CleanEscapes(buf, off + |G.Spell(w)|)
    decreases |buf| - off, 1
  {
    hide TextAt, ParseArray, G.CleanEscapes, G.Spell, G.Tree, G.Well, G.Levels, G.SpellItems, G.WellItems, G.Trees,
        G.ItemLevels, G.Blank;
    var open, items, end := ListParts(buf, off, depth);
    ListFrom(open, items, depth);
    w := G.List(open, items);
    ListText(buf, off, open, items, end);
    CleanOn(buf, end, end + 1);
  }

  /** The blanks of an empty list or the items of another, and where it is closed. */
  lemma {:induction false} ListParts(buf: bytes, off: nat, depth: nat)
      returns (open: bytes, items: seq<G.Item>, end: nat)
    requires off < |buf| && buf[off] == OPEN_ARRAY && ParseArray(buf, off, depth).Done?
    requires G.CleanEscapes(buf, off) && depth <= NESTING_LIMIT
    ensures G.Blank(open) && (items != [] ==> open == []) && G.WellItems(items)
    ensures depth + 1 + G.ItemLevels(items) <= NESTING_LIMIT
    ensures TextAt(buf, off + 1, open) && TextAt(buf, off + 1 + |open|, G.SpellItems(items))
    ensures end == off + 1 + |open| + |G.SpellItems(items)| < |buf| && buf[end] == CLOSE_ARRAY
    ensures ParseArray(buf, off, depth) == Done(Array(G.Trees(items)), end + 1) && G.CleanEscapes(buf, end)
    decreases |buf| - off, 0
  {
    hide TextAt, ParseItems, SkipBlanks, G.CleanEscapes, G.SpellItems, G.WellItems, G.Trees, G.ItemLevels, G.Blank;
    var at := SkipBlanks(buf, off + 1);
    CleanOn(buf, off, off + 1);
    open, items, end := [], [], at;
    NoBlanks();
    if ByteAt(buf, at, CLOSE_ARRAY) {
      open := PadWritten(buf, off + 1);
      NoItems(items);
      NoLevels();
      NothingHere(buf, at);
    } else {
      FirstOfItems(buf, at, depth + 1);
      var before := PadWritten(buf, off + 1);
      items := ItemsWritten(buf, at, depth + 1, before);
      end := ParseItems(buf, at, depth + 1).next;
      NothingHere(buf, off + 1);
    }
  }

  /** A list's text is put together from its parts. */
  lemma ListText(buf: bytes, off: nat, open: bytes, items: seq<G.Item>, end: nat)
    requires TextAt(buf, off + 1, open) && TextAt(buf, off + 1 + |open|, G.SpellItems(items))
    requires end == off + 1 + |open| + |G.SpellItems(items)| < |buf|
    requires buf[off] == OPEN_ARRAY && buf[end] == CLOSE_ARRAY
    ensures TextAt(buf, off, G.Spell(G.List(open, items))) && off + |G.Spell(G.List(open, items))| == end + 1
  {
    hide TextAt, G.SpellItems;
    OneByte(buf, off);
    OneByte(buf, end);
    TextJoin(buf, off + 1 + |open|, G.SpellItems(items), [CLOSE_ARRAY]);
    TextJoin(buf, off + 1, open, G.SpellItems(items) + [CLOSE_ARRAY]);
    TextJoin(buf, off, [OPEN_ARRAY], open + (G.SpellItems(items) + [CLOSE_ARRAY]));
  }

  lemma OneByte(buf: bytes, i: nat)
    requires i < |buf|
    ensures TextAt(buf, i, [buf[i]])
  {
  }

  lemma NoBlanks()
    ensures G.Blank([])
  {
  }

  lemma NoLevels()
    ensures G.ItemLevels([]) == 0 && G.EntryLevels([]) == 0
  {
  }

  lemma FirstOfItems(buf: bytes, at: nat, depth: nat)
    requires ParseItems(buf, at, depth).Done?
    ensures ParseValue(buf, at, depth).Done? && at < |buf| && buf[at] > 32
  {
    hide ParseValue, SkipBlanks;
    StartsWithNoBlank(buf, at, depth);
  }

  /** One more item in front. */
  lemma ItemFrom(item: G.Item, rest: seq<G.Item>)
    requires G.WellItem(item) && G.WellItems(rest)
    ensures var items := [item] + rest;
      && G.WellItems(items) && G.Trees(items) == [G.Tree(item.value)] + G.Trees(rest)
      && G.ItemLevels(items) == G.Max(G.Levels(item.value), G.ItemLevels(rest))
      && G.SpellItems(items) == G.SpellItem(item) + (if rest == [] then [] else [COMMA] + G.SpellItems(rest))
  {
    hide G.WellItem, G.SpellItem, G.Tree;
    assert ([item] + rest)[1..] == rest;
  }

  lemma {:induction false} ItemsWritten(buf: bytes, off: nat, depth: nat, before: bytes) returns (items: seq<G.Item>)
    requires ParseItems(buf, off, depth).Done? && ByteAt(buf, ParseItems(buf, off, depth).next, CLOSE_ARRAY)
    requires |before| <= off && TextAt(buf, off - |before|, before) && G.Blank(before)
    requires G.CleanEscapes(buf, off) && depth <= NESTING_LIMIT
    ensures items != [] && G.WellItems(items) && TextAt(buf, off - |before|, G.SpellItems(items))
    ensures depth + G.ItemLevels(items) <= NESTING_LIMIT
    ensures ParseItems(buf, off, depth) == Done(G.Trees(items), off - |before| + |G.SpellItems(items)|)
    ensures G.CleanEscapes(buf, off - |before| + |G.SpellItems(items)|)
    decreases |buf| - off, 3
  {
    hide TextAt, ParseValue, SkipBlanks, G.CleanEscapes, G.Spell, G.Tree, G.Well, G.Levels, G.SpellItems, G.WellItems,
        G.Trees, G.ItemLevels, G.Blank;
    var w := ValueWritten(buf, off, depth);
    var next := off + |G.Spell(w)|;
    var at := SkipBlanks(buf, next);
    var after := PadWritten(buf, next);
    var item := G.Item(before, w, after);
    TextJoin(buf, off, G.Spell(w), after);
    TextJoin(buf, off - |before|, before, G.Spell(w) + after);
    NoItems([]);
    NoLevels();
    var rest: seq<G.Item> := [];
    if ByteAt(buf, at, COMMA) {
      var j := SkipBlanks(buf, at + 1);
      FirstOfItems(buf, j, depth);
      CleanOn(buf, at, at + 1);
      var pad := PadWritten(buf, at + 1);
      rest := ItemsWritten(buf, j, depth, pad);
      OneByte(buf, at);
      TextJoin(buf, at, [COMMA], G.SpellItems(rest));
    } else {
      NothingHere(buf, at);
    }
    TextJoin(buf, off - |before|, G.SpellItem(item), if rest == [] then [] else [COMMA] + G.SpellItems(rest));
    ItemFrom(item, rest);
    items := [item] + rest;
    assert [G.Tree(w)] + [] == [G.Tree(w)];
  }

  lemma RecordFrom(open: bytes, entries: seq<G.Entry>, depth: nat)
    requires G.Blank(open) && (entries != [] ==> open == []) && G.WellEntries(entries)
    requires depth + 1 + G.EntryLevels(entries) <= NESTING_LIMIT
    ensures var w := G.Record(open, entries);
      && G.Well(w) && G.Tree(w) == Object(G.Members(entries)) && depth + G.Levels(w) <= NESTING_LIMIT
      && G.Spell(w) == [OPEN_OBJECT] + (open + (G.SpellEntries(entries) + [CLOSE_OBJECT]))
  {
    hide G.SpellEntries, G.WellEntries, G.Members, G.EntryLevels, G.Blank;
  }

  lemma FirstOfMembers(buf: bytes, at: nat, depth: nat)
    requires ParseMembers(buf, at, depth).Done?
    ensures ParseString(buf, at).Done? && at < |buf| && buf[at] == QUOTE
  {
    hide ParseValue, SkipBlanks;
  }

  lemma {:induction false} RecordWritten(buf: bytes, off: nat, depth: nat) returns (w: G.Value)
    requires off < |buf| && buf[off] == OPEN_OBJECT && ParseObject(buf, off, depth).Done?
    requires G.CleanEscapes(buf, off) && depth <= NESTING_LIMIT
    ensures G.Well(w) && TextAt(buf, off, G.Spell(w)) && depth + G.Levels(w) <= NESTING_LIMIT
    ensures ParseObject(buf, off, depth) == Done(G.Tree(w), off + |G.Spell(w)|)
    ensures G.CleanEscapes(buf, off + |G.Spell(w)|)
    decreases |buf| - off, 1
  {
    hide TextAt, ParseObject, G.CleanEscapes, G.Spell, G.Tree, G.Well, G.Levels, G.SpellEntries, G.WellEntries,
        G.Members, G.EntryLevels, G.Blank;
    var open, entries, end := RecordParts(buf, off, depth);
    RecordFrom(open, entries, depth);
    w := G.Record(open, entries);
    RecordText(buf, off, open, entries, end);
    CleanOn(buf, end, end + 1);
  }

  lemma {:induction false} RecordParts(buf: bytes, off: nat, depth: nat)
      returns (open: bytes, entries: seq<G.Entry>, end: nat)
    requires off < |buf| && buf[off] == OPEN_OBJECT && ParseObject(buf, off, depth).Done?
    requires G.CleanEscapes(buf, off) && depth <= NESTING_LIMIT
    ensures G.Blank(open) && (entries != [] ==> open == []) && G.WellEntries(entries)
    ensures depth + 1 + G.EntryLevels(entries) <= NESTING_LIMIT
    ensures TextAt(buf, off + 1, open) && TextAt(buf, off + 1 + |open|, G.SpellEntries(entries))
    ensures end == off + 1 + |open| + |G.SpellEntries(entries)| < |buf| && buf[end] == CLOSE_OBJECT
    ensures ParseObject(buf, off, depth) == Done(Object(G.Members(entries)), end + 1) && G.CleanEscapes(buf, end)
    decreases |buf| - off, 0
  {
    hide TextAt, ParseMembers, SkipBlanks, G.CleanEscapes, G.SpellEntries, G.WellEntries, G.Members, G.EntryLevels,
        G.Blank;
    var at := SkipBlanks(buf, off + 1);
    CleanOn(buf, off, off + 1);
    open, entries, end := [], [], at;
    NoBlanks();
    if ByteAt(buf, at, CLOSE_OBJECT) {
      open := PadWritten(buf, off + 1);
      NoEntries(entries);
      NoLevels();
      NothingHere(buf, at);
    } else {
      FirstOfMembers(buf, at, depth + 1);
      var before := PadWritten(buf, off + 1);
      entries := EntriesWritten(buf, at, depth + 1, before);
      end := ParseMembers(buf, at, depth + 1).next;
      NothingHere(buf, off + 1);
    }
  }

  lemma RecordText(buf: bytes, off: nat, open: bytes, entries: seq<G.Entry>, end: nat)
    requires TextAt(buf, off + 1, open) && TextAt(buf, off + 1 + |open|, G.SpellEntries(entries))
    requires end == off + 1 + |open| + |G.SpellEntries(entries)| < |buf|
    requires buf[off] == OPEN_OBJECT && buf[end] == CLOSE_OBJECT
    ensures TextAt(buf, off, G.Spell(G.Record(open, entries))) && off + |G.Spell(G.Record(open, entries))| == end + 1
  {
    hide TextAt, G.SpellEntries;
    OneByte(buf, off);
    OneByte(buf, end);
    TextJoin(buf, off + 1 + |open|, G.SpellEntries(entries), [CLOSE_OBJECT]);
    TextJoin(buf, off + 1, open, G.SpellEntries(entries) + [CLOSE_OBJECT]);
    TextJoin(buf, off, [OPEN_OBJECT], open + (G.SpellEntries(entries) + [CLOSE_OBJECT]));
  }

  /** One more entry in front. */
  lemma EntryFrom(e: G.Entry, rest: seq<G.Entry>)
    requires G.WellEntry(e) && G.WellEntries(rest)
    ensures var entries := [e] + rest;
      && G.WellEntries(entries)
      && G.Members(entries) == [Member(G.StringOf(e.key), G.Tree(e.value))] + G.Members(rest)
      && G.EntryLevels(entries) == G.Max(G.Levels(e.value), G.EntryLevels(rest))
      && G.SpellEntries(entries) == G.SpellEntry(e) + (if rest == [] then [] else [COMMA] + G.SpellEntries(rest))
  {
    hide G.SpellEntry, G.Tree, G.StringOf, G.Well, G.WellString, G.Blank;
    assert ([e] + rest)[1..] == rest;
  }

  /** Where the value of the member whose key starts at `off` starts. */
  function ValueAt(buf: bytes, off: nat): nat {
    match ParseString(buf, off)
    case Fail => 0
    case Done(_, next) => SkipBlanks(buf, SkipBlanks(buf, next) + 1)
  }

  /** The first byte behind that value which is no blank. */
  function MemberStop(buf: bytes, off: nat, depth: nat): nat {
    match ParseValue(buf, ValueAt(buf, off), depth)
    case Fail => 0
    case Done(_, next) => SkipBlanks(buf, next)
  }

  /** One member: its key, the colon, its value and the blanks among them. */
  lemma {:induction false} MemberWritten(buf: bytes, off: nat, depth: nat, before: bytes) returns (e: G.Entry)
    requires ParseMembers(buf, off, depth).Done? && depth <= NESTING_LIMIT && G.CleanEscapes(buf, off)
    requires |before| <= off && TextAt(buf, off - |before|, before) && G.Blank(before)
    requires var at := MemberStop(buf, off, depth); at < |buf| && buf[at] > 32
    ensures G.WellEntry(e) && TextAt(buf, off - |before|, G.SpellEntry(e)) && depth + G.Levels(e.value) <= NESTING_LIMIT
    ensures ParseString(buf, off).Done? && ParseString(buf, off).value == G.StringOf(e.key)
    ensures var v := ParseValue(buf, ValueAt(buf, off), depth); v.Done? && v.value == G.Tree(e.value)
    ensures MemberStop(buf, off, depth) == off - |before| + |G.SpellEntry(e)| && |G.SpellEntry(e)| > |before|
    ensures G.CleanEscapes(buf, off - |before| + |G.SpellEntry(e)|)
    decreases |buf| - off, 2
  {
    hide TextAt, ParseValue, ParseString, SkipBlanks, G.CleanEscapes, G.Spell, G.Tree, G.Well, G.Levels, G.SpellString,
        G.WellString, G.StringOf, G.Blank;
    FirstOfMembers(buf, off, depth);
    var key := StringWritten(buf, off);
    var afterKey := off + |G.SpellString(key)|;
    var colon := SkipBlanks(buf, afterKey);
    var value := SkipBlanks(buf, colon + 1);
    ColonFollows(buf, off, depth);
    var beforeColon := PadWritten(buf, afterKey);
    CleanOn(buf, colon, colon + 1);
    StartsWithNoBlank(buf, value, depth);
    var afterColon := PadWritten(buf, colon + 1);
    var w := ValueWritten(buf, value, depth);
    var next := value + |G.Spell(w)|;
    var after := PadWritten(buf, next);
    e := G.Entry(before, key, beforeColon, afterColon, w, after);
    OneByte(buf, colon);
    EntryJoin(buf, off, e);
  }

  lemma ColonFollows(buf: bytes, off: nat, depth: nat)
    requires ParseMembers(buf, off, depth).Done?
    ensures ParseString(buf, off).Done?
    ensures var colon := SkipBlanks(buf, ParseString(buf, off).next);
      ByteAt(buf, colon, COLON) && ParseValue(buf, SkipBlanks(buf, colon + 1), depth).Done?
  {
    hide ParseValue, ParseString, SkipBlanks;
  }

  lemma EntryJoin(buf: bytes, off: nat, e: G.Entry)
    requires |e.before| <= off && TextAt(buf, off - |e.before|, e.before) && TextAt(buf, off, G.SpellString(e.key))
    requires var afterKey := off + |G.SpellString(e.key)|;
      var colon := afterKey + |e.beforeColon|;
      var value := colon + 1 + |e.afterColon|;
      && TextAt(buf, afterKey, e.beforeColon) && TextAt(buf, colon, [COLON]) && TextAt(buf, colon + 1, e.afterColon)
      && TextAt(buf, value, G.Spell(e.value)) && TextAt(buf, value + |G.Spell(e.value)|, e.after)
    ensures TextAt(buf, off - |e.before|, G.SpellEntry(e))
    ensures |G.SpellEntry(e)| == |e.before| + |G.SpellString(e.key)| + |e.beforeColon| + 1 + |e.afterColon|
      + |G.Spell(e.value)| + |e.after|
  {
    hide TextAt, G.Spell, G.SpellString;
    var key, value := G.SpellString(e.key), G.Spell(e.value);
    var colon := off + |key| + |e.beforeColon|;
    TextJoin(buf, colon + 1 + |e.afterColon|, value, e.after);
    TextJoin(buf, colon + 1, e.afterColon, value + e.after);
    TextJoin(buf, colon, [COLON], e.afterColon + (value + e.after));
    TextJoin(buf, off + |key|, e.beforeColon, [COLON] + (e.afterColon + (value + e.after)));
    TextJoin(buf, off, key, e.beforeColon + ([COLON] + (e.afterColon + (value + e.after))));
    TextJoin(buf, off - |e.before|, e.before, key + (e.beforeColon + ([COLON] + (e.afterColon + (value + e.after)))));
  }

  lemma MembersGoOn(buf: bytes, off: nat, depth: nat)
    requires ParseMembers(buf, off, depth).Done? && ByteAt(buf, ParseMembers(buf, off, depth).next, CLOSE_OBJECT)
    ensures ParseString(buf, off).Done? && ParseValue(buf, ValueAt(buf, off), depth).Done?
    ensures var at := MemberStop(buf, off, depth);
      && at < |buf| && buf[at] > 32
      && var j := SkipBlanks(buf, at + 1);
      var first := Member(ParseString(buf, off).value, ParseValue(buf, ValueAt(buf, off), depth).value);
      if ByteAt(buf, at, COMMA) then
        ParseMembers(buf, j, depth).Done?
        && ParseMembers(buf, off, depth)
           == Done([first] + ParseMembers(buf, j, depth).value, ParseMembers(buf, j, depth).next)
      else ParseMembers(buf, off, depth) == Done([first], at)
  {
    hide ParseValue, ParseString, SkipBlanks;
  }

  lemma {:induction false} EntriesWritten(buf: bytes, off: nat, depth: nat, before: bytes)
      returns (entries: seq<G.Entry>)
    requires ParseMembers(buf, off, depth).Done? && ByteAt(buf, ParseMembers(buf, off, depth).next, CLOSE_OBJECT)
    requires |before| <= off && TextAt(buf, off - |before|, before) && G.Blank(before)
    requires G.CleanEscapes(buf, off) && depth <= NESTING_LIMIT
    ensures entries != [] && G.WellEntries(entries) && TextAt(buf, off - |before|, G.SpellEntries(entries))
    ensures depth + G.EntryLevels(entries) <= NESTING_LIMIT
    ensures ParseMembers(buf, off, depth) == Done(G.Members(entries), off - |before| + |G.SpellEntries(entries)|)
    ensures G.CleanEscapes(buf, off - |before| + |G.SpellEntries(entries)|)
    decreases |buf| - off, 3
  {
    hide TextAt, ParseMembers, ParseValue, ParseString, SkipBlanks, ValueAt, MemberStop, G.CleanEscapes, G.SpellEntry,
        G.Tree, G.WellEntry, G.Levels, G.SpellEntries, G.WellEntries, G.Members, G.EntryLevels, G.Blank, G.StringOf;
    MembersGoOn(buf, off, depth);
    var e := MemberWritten(buf, off, depth, before);
    var at := off - |before| + |G.SpellEntry(e)|;
    NoEntries([]);
    NoLevels();
    var rest: seq<G.Entry> := [];
    if ByteAt(buf, at, COMMA) {
      var j := SkipBlanks(buf, at + 1);
      FirstOfMembers(buf, j, depth);
      CleanOn(buf, at, at + 1);
      var pad := PadWritten(buf, at + 1);
      rest := EntriesWritten(buf, j, depth, pad);
      OneByte(buf, at);
      TextJoin(buf, at, [COMMA], G.SpellEntries(rest));
    } else {
      NothingHere(buf, at);
    }
    TextJoin(buf, off - |before|, G.SpellEntry(e), if rest == [] then [] else [COMMA] + G.SpellEntries(rest));
    EntryFrom(e, rest);
    entries := [e] + rest;
    var first := Member(ParseString(buf, off).value, ParseValue(buf, ValueAt(buf, off), depth).value);
    assert [first] + [] == [first];
  }

  // ----- documents -----

  lemma {:induction false} SpaceWritten(doc: bytes, i: nat) returns (pad: bytes)
    requires i <= |doc|
    ensures G.SpaceOnly(pad) && TextAt(doc, i, pad) && SkipDocBlanks(doc, i) == i + |pad|
    decreases |doc| - i
  {
    if i < |doc| && IsBlank(doc[i]) {
      var rest := SpaceWritten(doc, i + 1);
      OneByte(doc, i);
      TextJoin(doc, i, [doc[i]], rest);
      pad := [doc[i]] + rest;
    } else {
      pad := [];
      NothingHere(doc, i);
    }
  }

  lemma DocumentJoin(doc: bytes, mark: bytes, before: bytes, text: bytes, after: bytes, tail: bytes)
    requires TextAt(doc, 0, mark) && TextAt(doc, |mark|, before) && TextAt(doc, |mark| + |before|, text)
    requires TextAt(doc, |mark| + |before| + |text|, after)
    requires |mark| + |before| + |text| + |after| <= |doc|
    requires tail == doc[|mark| + |before| + |text| + |after|..]
    ensures doc == mark + (before + (text + (after + tail)))
  {
    hide TextAt;
    var end := |mark| + |before| + |text| + |after|;
    TextIs(doc, end, |doc|);
    assert doc[end..|doc|] == tail;
    TextJoin(doc, end - |after|, after, tail);
    TextJoin(doc, |mark| + |before|, text, after + tail);
    TextJoin(doc, |mark|, before, text + (after + tail));
    TextJoin(doc, 0, mark, before + (text + (after + tail)));
    WholeText(doc, mark + (before + (text + (after + tail))));
  }

  lemma WholeText(doc: bytes, t: bytes)
    requires TextAt(doc, 0, t) && |t| == |doc|
    ensures t == doc
  {
    forall i | 0 <= i < |t| ensures t[i] == doc[i] { assert doc[0 + i] == t[i]; }
  }

  /**
   Whatever parses, as long as every \u in it is followed by four hex digits, is a text that writes the tree it parses
   to: nothing else is accepted.
   */
  lemma ParsedTextIsWritten(doc: bytes, maxSize: nat) returns (d: G.Document)
    requires ParseDocument(doc, maxSize).Some? && G.CleanEscapes(doc, 0)
    ensures G.WellDocument(d) && G.SpellDocument(d) == doc && ParseDocument(doc, maxSize) == Some(G.Tree(d.value))
  {
    hide TextAt, ParseValue, SkipBlanks, SkipDocBlanks, G.Spell, G.Tree, G.Well, G.Levels, G.CleanEscapes, G.Blank,
        G.SpaceOnly;
    var mark := |doc| > 4 && doc[..3] == [0xef, 0xbb, 0xbf];
    var lead: bytes := if mark then [0xef, 0xbb, 0xbf] else [];
    LeadIs(doc);
    StartsWithNoBlank(doc, DocStart(doc), 0);
    var before := PadWritten(doc, |lead|);
    var w := ValueWritten(doc, DocStart(doc), 0);
    var next := DocStart(doc) + |G.Spell(w)|;
    var after := SpaceWritten(doc, next);
    var tail := doc[next + |after|..];
    d := G.Document(mark, before, w, after, tail);
    DocumentJoin(doc, lead, before, G.Spell(w), after, tail);
  }

  lemma LeadIs(doc: bytes)
    requires G.CleanEscapes(doc, 0)
    ensures var mark := |doc| > 4 && doc[..3] == [0xef, 0xbb, 0xbf];
      var lead: bytes := if mark then [0xef, 0xbb, 0xbf] else [];
      TextAt(doc, 0, lead) && DocStart(doc) == SkipBlanks(doc, |lead|) && G.CleanEscapes(doc, |lead|) && |lead| <= |doc|
  {
    hide SkipBlanks;
    if |doc| > 4 && doc[..3] == [0xef, 0xbb, 0xbf] {
      TextIs(doc, 0, 3);
      assert doc[0..3] == doc[..3];
      assert doc[0] == doc[..3][0] && doc[1] == doc[..3][1] && doc[2] == doc[..3][2];
      CleanOn(doc, 0, 3);
    }
  }

  /** So the texts that parse are exactly those, and each to the tree that it writes. */
  lemma ParsesIff(doc: bytes, maxSize: nat, v: Json)
    requires G.CleanEscapes(doc, 0)
    ensures ParseDocument(doc, maxSize) == Some(v) <==> |doc| <= maxSize && exists d :: G.Writes(d, doc, v)
  {
    hide ParseDocument, G.SpellDocument, G.WellDocument, G.Writes;
    if ParseDocument(doc, maxSize) == Some(v) {
      ParsedSize(doc, maxSize);
      var d := ParsedTextIsWritten(doc, maxSize);
      DocumentWrites(d, doc, v);
    }
    if |doc| <= maxSize && exists d :: G.Writes(d, doc, v) {
      var d :| G.Writes(d, doc, v);
      WritingParses(d, doc, v, maxSize);
    }
  }

  lemma DocumentWrites(d: G.Document, doc: bytes, v: Json)
    requires G.WellDocument(d) && G.SpellDocument(d) == doc && G.Tree(d.value) == v
    ensures G.Writes(d, doc, v)
  {
  }

  lemma WritingParses(d: G.Document, doc: bytes, v: Json, maxSize: nat)
    requires G.Writes(d, doc, v) && |doc| <= maxSize
    ensures ParseDocument(doc, maxSize) == Some(v)
  {
    hide ParseDocument, G.SpellDocument, G.Tree;
    WrittenTextParses(d, maxSize);
  }

  lemma ParsedSize(doc: bytes, maxSize: nat)
    ensures ParseDocument(doc, maxSize).Some? ==> |doc| <= maxSize
  {
    hide ParseValue;
  }
}
