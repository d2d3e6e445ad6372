/** The reader of CJsonSpec takes exactly the texts of CJsonGrammar, and for what they mean. */
module CJsonReading {
  import opened Bytes
  import opened CJsonSpec
  import opened CJsonLaws
  import G = CJsonGrammar

  // ----- strings -----

  lemma DigitIsHexValue(b: byte)
    ensures HexValue(b) == G.Digit(b)
  {
  }

  lemma HexReads(buf: bytes, i: nat, hex: bytes)
    requires |hex| == 4 && TextAt(buf, i, hex)
    ensures Hex4(buf, i) == if G.IsHex(hex) then G.Code(hex) else 0
  {
    assert buf[i] == hex[0] && buf[i + 1] == hex[1] && buf[i + 2] == hex[2] && buf[i + 3] == hex[3];
    DigitIsHexValue(hex[0]);
    DigitIsHexValue(hex[1]);
    DigitIsHexValue(hex[2]);
    DigitIsHexValue(hex[3]);
  }

  lemma CharEscapeReads(buf: bytes, i: nat, c: G.Char, end: nat)
    requires G.WellChar(c) && !c.Plain? && TextAt(buf, i, G.SpellChar(c)) && i + |G.SpellChar(c)| <= end < |buf|
    ensures buf[i] == BACKSLASH && EscapeAt(buf, i, end) == Some(Piece(G.CharBytes(c), |G.SpellChar(c)|))
  {
    hide Utf8, HexValue, Hex4, TextAt;
    var t := G.SpellChar(c);
    TextByte(buf, i, t, 0);
    TextByte(buf, i, t, 1);
    match c
    case Letter(l) =>
    case Unit(hex) => UnitReads(buf, i, hex);
    case Pair(high, low) => PairReads(buf, i, high, low);
  }

  lemma PairReads(buf: bytes, i: nat, high: bytes, low: bytes)
    requires G.IsHex(high) && G.IsHex(low) && TextAt(buf, i, G.SpellChar(G.Pair(high, low)))
    ensures i + 12 <= |buf| && Hex4(buf, i + 2) == G.Code(high) && Hex4(buf, i + 8) == G.Code(low)
    ensures buf[i + 6] == BACKSLASH && buf[i + 7] == 'u' as int
  {
    hide HexValue, Hex4, TextAt;
    var a, b := [BACKSLASH, 'u' as int] + high, [BACKSLASH, 'u' as int] + low;
    assert G.SpellChar(G.Pair(high, low)) == a + b;
    TextSplit(buf, i, a, b);
    UnitReads(buf, i, high);
    UnitReads(buf, i + 6, low);
    TextByte(buf, i + 6, b, 0);
    TextByte(buf, i + 6, b, 1);
  }

  /** One character, and where the next one starts. */
  lemma CharReads(buf: bytes, i: nat, c: G.Char, end: nat)
    requires G.WellChar(c) && TextAt(buf, i, G.SpellChar(c)) && i + |G.SpellChar(c)| <= end < |buf|
    ensures |G.SpellChar(c)| > 0
    ensures Unescape(buf, i, end)
      == match Unescape(buf, i + |G.SpellChar(c)|, end) { case None => None case Some(r) => Some(G.CharBytes(c) + r) }
  {
    hide EscapeAt, TextAt;
    if c.Plain? {
      TextByte(buf, i, [c.b], 0);
    } else {
      CharEscapeReads(buf, i, c, end);
    }
  }

  lemma {:induction false} CharsRead(buf: bytes, i: nat, cs: seq<G.Char>, end: nat)
    requires (forall c :: c in cs ==> G.WellChar(c)) && TextAt(buf, i, G.SpellChars(cs))
    requires end == i + |G.SpellChars(cs)| < |buf|
    ensures Unescape(buf, i, end) == Some(G.Meaning(cs))
    decreases |cs|
  {
    hide Unescape, TextAt, G.SpellChar, G.CharBytes, G.WellChar;
    if cs == [] {
      UnescapeEnds(buf, end);
    } else {
      var t := G.SpellChar(cs[0]);
      TextSplit(buf, i, t, G.SpellChars(cs[1..]));
      CharReads(buf, i, cs[0], end);
      CharsRead(buf, i + |t|, cs[1..], end);
    }
  }

  /** No quote but behind a backslash, and no backslash at the end. */
  predicate NoBareQuote(s: bytes)
    decreases |s|
  {
    s == []
    || if s[0] == BACKSLASH then |s| >= 2 && NoBareQuote(s[2..]) else s[0] != QUOTE && NoBareQuote(s[1..])
  }

  lemma {:induction false} QuoteCloses(buf: bytes, i: nat, s: bytes)
    requires NoBareQuote(s) && TextAt(buf, i, s + [QUOTE])
    ensures CloseQuote(buf, i) == Some(i + |s|)
    decreases |s|
  {
    hide TextAt;
    var t := s + [QUOTE];
    TextByte(buf, i, t, 0);
    if s != [] {
      var n := if s[0] == BACKSLASH then 2 else 1;
      assert t == s[..n] + (s[n..] + [QUOTE]);
      TextSplit(buf, i, s[..n], s[n..] + [QUOTE]);
      TextByte(buf, i + n, s[n..] + [QUOTE], 0);
      QuoteCloses(buf, i + n, s[n..]);
    }
  }

  lemma StringReads(buf: bytes, off: nat, cs: seq<G.Char>)
    requires G.WellString(cs) && TextAt(buf, off, G.SpellString(cs))
    ensures ParseString(buf, off) == Done(G.StringOf(cs), off + |G.SpellString(cs)|)
  {
    hide TextAt, CloseQuote, Unescape, G.SpellChars, G.Meaning, G.WellChar, NoBareQuote, Find;
    var body := G.SpellChars(cs);
    TextSplit(buf, off, [QUOTE], body + [QUOTE]);
    TextByte(buf, off, [QUOTE], 0);
    CharsAreClosed(cs);
    QuoteCloses(buf, off + 1, body);
    TextSplit(buf, off + 1, body, [QUOTE]);
    TextByte(buf, off + 1 + |body|, [QUOTE], 0);
    CharsRead(buf, off + 1, cs, off + 1 + |body|);
  }

  lemma {:induction false} CharsAreClosed(cs: seq<G.Char>)
    requires G.WellString(cs)
    ensures NoBareQuote(G.SpellChars(cs))
    decreases |cs|
  {
    hide G.Code, G.CharBytes, G.WellChar, G.SpellChar;
    if cs != [] {
      CharsAreClosed(cs[1..]);
      CharIsClosed(cs[0], G.SpellChars(cs[1..]));
    }
  }

  lemma CharIsClosed(c: G.Char, rest: bytes)
    requires G.WellChar(c) && NoBareQuote(rest)
    ensures NoBareQuote(G.SpellChar(c) + rest)
  {
    hide NoBareQuote, G.Code, G.IsHex;
    match c
    case Plain(b) => PlainByte(b, rest);
    case Letter(l) => Escaped(l, rest);
    case Unit(hex) => UnitIsClosed(hex, rest);
    case Pair(high, low) =>
      UnitIsClosed(low, rest);
      UnitIsClosed(high, ([BACKSLASH, 'u' as int] + low) + rest);
      var a, b := [BACKSLASH, 'u' as int] + high, [BACKSLASH, 'u' as int] + low;
      assert G.SpellChar(c) + rest == a + (b + rest);
  }

  lemma UnitIsClosed(hex: bytes, rest: bytes)
    requires G.IsHex(hex) && NoBareQuote(rest)
    ensures NoBareQuote(([BACKSLASH, 'u' as int] + hex) + rest)
  {
    hide NoBareQuote, G.IsHex;
    HexIsPlain(hex, rest);
    Escaped('u' as int, hex + rest);
    assert ([BACKSLASH, 'u' as int] + hex) + rest == [BACKSLASH, 'u' as int] + (hex + rest);
  }

  lemma Escaped(b: byte, rest: bytes)
    requires NoBareQuote(rest)
    ensures NoBareQuote([BACKSLASH, b] + rest)
  {
    assert ([BACKSLASH, b] + rest)[2..] == rest;
  }

  lemma HexIsPlain(hex: bytes, rest: bytes)
    requires G.IsHex(hex) && NoBareQuote(rest)
    ensures NoBareQuote(hex + rest)
  {
    PlainByte(hex[3], rest);
    PlainByte(hex[2], [hex[3]] + rest);
    PlainByte(hex[1], [hex[2]] + ([hex[3]] + rest));
    PlainByte(hex[0], [hex[1]] + ([hex[2]] + ([hex[3]] + rest)));
    assert hex + rest == [hex[0]] + ([hex[1]] + ([hex[2]] + ([hex[3]] + rest)));
  }

  lemma PlainByte(b: byte, rest: bytes)
    requires b != QUOTE && b != BACKSLASH && NoBareQuote(rest)
    ensures NoBareQuote([b] + rest)
  {
    assert ([b] + rest)[1..] == rest;
  }

  lemma UnitReads(buf: bytes, i: nat, hex: bytes)
    requires |hex| == 4 && TextAt(buf, i, [BACKSLASH, 'u' as int] + hex)
    ensures i + 6 <= |buf| && Hex4(buf, i + 2) == if G.IsHex(hex) then G.Code(hex) else 0
  {
    TextSplit(buf, i, [BACKSLASH, 'u' as int], hex);
    HexReads(buf, i + 2, hex);
  }

  // ----- numbers -----

  lemma {:induction false} DigitsRun(s: bytes, i: nat, d: bytes)
    requires G.Digits(d) && TextAt(s, i, d) && (i + |d| == |s| || !IsDigit(s[i + |d|]))
    ensures DigitRun(s, i) == |d|
    decreases |d|
  {
    if d != [] {
      TextByte(s, i, d, 0);
      assert d == [d[0]] + d[1..];
      TextSplit(s, i, [d[0]], d[1..]);
      DigitsRun(s, i + 1, d[1..]);
    }
  }

  lemma TextHere(s: bytes, a: bytes, b: bytes)
    requires s == a + b
    ensures TextAt(s, |a|, b) && TextAt(s, 0, a)
  {
  }

  /** The exponent is read whole. */
  lemma ExponentReads(s: bytes, i: nat, n: G.Num)
    requires G.WellNum(n) && n.exp.Some? && i + |G.SpellExponent(n.exp.value)| == |s|
    requires TextAt(s, i, G.SpellExponent(n.exp.value))
    ensures ExponentLength(s, i) == |s| - i
  {
    var e := n.exp.value;
    TextByte(s, i, G.SpellExponent(e), 0);
    TextByte(s, i, G.SpellExponent(e), 1);
    TextSplit(s, i, [e.marker], e.sign + e.digits);
    TextSplit(s, i + 1, e.sign, e.digits);
    TextByte(s, i + 1 + |e.sign|, e.digits, 0);
    DigitsRun(s, i + 1 + |e.sign|, e.digits);
  }

  /** The point, and the digits behind it. */
  function FracText(n: G.Num): bytes {
    match n.frac case None => [] case Some(d) => ['.' as int] + d
  }

  function ExpText(n: G.Num): bytes {
    match n.exp case None => [] case Some(e) => G.SpellExponent(e)
  }

  lemma NumText(n: G.Num)
    ensures G.SpellNum(n) == (if n.minus then [MINUS] else []) + (n.whole + (FracText(n) + ExpText(n)))
  {
    hide G.SpellExponent;
  }

  /** Where the parts of a number stand. */
  lemma NumParts(n: G.Num)
    requires G.WellNum(n)
    ensures var t := G.SpellNum(n);
      var sign := if n.minus then 1 else 0;
      var dot := sign + |n.whole|;
      && TextAt(t, sign, n.whole) && TextAt(t, dot, FracText(n)) && TextAt(t, dot + |FracText(n)|, ExpText(n))
      && |t| == dot + |FracText(n)| + |ExpText(n)|
      && (n.minus ==> t[0] == MINUS)
  {
    hide G.SpellNum, FracText, ExpText, TextAt;
    NumText(n);
    FourParts(if n.minus then [MINUS] else [], n.whole, FracText(n), ExpText(n), G.SpellNum(n));
  }

  lemma FourParts(a: bytes, b: bytes, c: bytes, d: bytes, t: bytes)
    requires t == a + (b + (c + d))
    ensures TextAt(t, |a|, b) && TextAt(t, |a| + |b|, c) && TextAt(t, |a| + |b| + |c|, d)
    ensures |t| == |a| + |b| + |c| + |d|
  {
    hide TextAt;
    TextHere(t, a, b + (c + d));
    TextSplit(t, |a|, b, c + d);
    TextSplit(t, |a| + |b|, c, d);
  }

  lemma NumberIsRead(n: G.Num)
    requires G.WellNum(n)
    ensures FloatPrefix(G.SpellNum(n)) == |G.SpellNum(n)|
    ensures G.SpellNum(n)[0] == MINUS || IsDigit(G.SpellNum(n)[0])
  {
    hide G.SpellExponent, G.SpellNum, ExponentLength;
    var t := G.SpellNum(n);
    NumParts(n);
    var sign := if n.minus then 1 else 0;
    var dot := sign + |n.whole|;
    var mantissa := dot + |FracText(n)|;
    ExpStart(n);
    if n.exp.Some? { TextByte(t, mantissa, ExpText(n), 0); }
    if n.frac.Some? {
      TextByte(t, dot, FracText(n), 0);
      TextSplit(t, dot, ['.' as int], n.frac.value);
      DigitsRun(t, dot + 1, n.frac.value);
    }
    DigitsRun(t, sign, n.whole);
    if n.exp.Some? { ExponentReads(t, mantissa, n); } else { NoExponent(t, mantissa); }
    if n.whole != [] { TextByte(t, sign, n.whole, 0); }
  }

  lemma ExpStart(n: G.Num)
    requires G.WellNum(n)
    ensures n.exp.Some? ==> ExpText(n) != [] && (ExpText(n)[0] == 'e' as int || ExpText(n)[0] == 'E' as int)
  {
  }

  lemma NoExponent(t: bytes, i: nat)
    requires i == |t|
    ensures ExponentLength(t, i) == 0
  {
  }

  lemma {:induction false} DigitsValued(s: bytes)
    requires G.Digits(s)
    ensures NatOf(s) == Some(G.Natural(s))
  {
    if s != [] { DigitsValued(s[..|s| - 1]); }
  }

  lemma {:induction false} Spoiled(s: bytes, k: nat)
    requires k < |s| && !IsDigit(s[k])
    ensures NatOf(s) == None
    decreases |s|
  {
    if k < |s| - 1 { Spoiled(s[..|s| - 1], k); }
  }

  lemma NumberMeans(n: G.Num)
    requires G.WellNum(n)
    ensures NumberValue(G.SpellNum(n)) == G.NumOf(n)
  {
    hide G.SpellExponent, G.SpellNum, NatOf, G.Natural;
    var t := G.SpellNum(n);
    NumParts(n);
    var sign := if n.minus then 1 else 0;
    var dot := sign + |n.whole|;
    if n.frac.None? && n.exp.None? {
      assert t[sign..] == n.whole;
      DigitsValued(n.whole);
      if !n.minus { assert t == n.whole; TextByte(t, 0, n.whole, 0); }
    } else {
      ExpStart(n);
      TextByte(t, dot, if n.frac.Some? then FracText(n) else ExpText(n), 0);
      Spoiled(t[sign..], |n.whole|);
      if !n.minus {
        assert t[0..] == t;
        if n.whole != [] { TextByte(t, 0, n.whole, 0); }
      }
    }
  }

  lemma NumberBytes(n: G.Num)
    requires G.WellNum(n)
    ensures AllNumberBytes(G.SpellNum(n)) && 0 < |G.SpellNum(n)| <= 63
  {
    var whole := n.whole;
    assert AllNumberBytes(n.whole) && AllNumberBytes(FracText(n));
    if n.exp.Some? {
      var e := n.exp.value;
      assert AllNumberBytes(e.sign) && AllNumberBytes(e.digits) && IsNumberByte(e.marker);
      assert AllNumberBytes(G.SpellExponent(e));
    }
    assert AllNumberBytes(ExpText(n));
  }

  lemma NumReads(buf: bytes, off: nat, n: G.Num, depth: nat)
    requires G.WellNum(n) && TextAt(buf, off, G.SpellNum(n)) && NumberEnds(buf, off + |G.SpellNum(n)|)
    ensures ParseValue(buf, off, depth) == Done(G.NumOf(n), off + |G.SpellNum(n)|)
  {
    hide G.SpellNum, G.NumOf, G.WellNum, TextAt, ParseValue, NumberEnds;
    NumberBytes(n);
    NumberIsRead(n);
    NumberMeans(n);
    NumberReads(buf, off, G.SpellNum(n), depth);
  }

  // ----- blanks and first bytes -----

  lemma PadSkipped(buf: bytes, i: nat, pad: bytes)
    requires TextAt(buf, i, pad) && G.Blank(pad) && i + |pad| < |buf| && buf[i + |pad|] > 32
    ensures SkipBlanks(buf, i) == i + |pad|
  {
    forall k | i <= k < i + |pad| ensures buf[k] <= 32 { assert buf[i + (k - i)] == pad[k - i]; }
    SkipTo(buf, i, i + |pad|);
  }

  /** What follows a value: blanks, and then a byte that is none. */
  lemma NumberEndsAtPad(buf: bytes, i: nat, pad: bytes)
    requires TextAt(buf, i, pad) && G.Blank(pad)
    requires i + |pad| < |buf| && (buf[i + |pad|] == COMMA || buf[i + |pad|] == CLOSE_ARRAY
        || buf[i + |pad|] == CLOSE_OBJECT)
    ensures NumberEnds(buf, i)
  {
    if pad != [] { TextByte(buf, i, pad, 0); }
  }

  /** A value starts with no blank and no closing bracket. */
  lemma FirstByteOf(w: G.Value)
    requires G.Well(w)
    ensures |G.Spell(w)| > 0 && G.Spell(w)[0] > 32 && G.Spell(w)[0] != CLOSE_ARRAY && G.Spell(w)[0] != CLOSE_OBJECT
  {
    hide G.SpellNum, G.WellNum, G.SpellChars, G.SpellItems, G.SpellEntries, G.WellItems, G.WellEntries, G.WellString;
    match w
    case Number(n) => NumberIsRead(n); NumberBytes(n);
    case Word(v) => WordsStart(v);
    case _ =>
  }

  lemma WordsStart(v: Json)
    requires v == Null || v == False || v == True
    ensures G.WordText(v) == Print(v, false, 0) && |G.WordText(v)| > 0
    ensures var b := G.WordText(v)[0]; b == 110 || b == 102 || b == 116
  {
  }

  // ----- where the parts of a container stand -----

  lemma ItemPlaced(buf: bytes, off: nat, items: seq<G.Item>)
    requires items != [] && G.WellItems(items) && TextAt(buf, off, G.SpellItems(items))
    requires ByteAt(buf, off + |G.SpellItems(items)|, CLOSE_ARRAY)
    ensures var item := items[0];
      var at := off + |item.before|;
      var next := at + |G.Spell(item.value)|;
      var end := next + |item.after|;
      && TextAt(buf, off, item.before) && TextAt(buf, at, G.Spell(item.value)) && TextAt(buf, next, item.after)
      && G.Blank(item.before) && G.Well(item.value) && G.Blank(item.after)
      && end < |buf| && buf[end] > 32 && NumberEnds(buf, next) && SkipBlanks(buf, next) == end
      && (|items| == 1 ==> end == off + |G.SpellItems(items)|)
      && (|items| > 1 ==>
            && buf[end] == COMMA && TextAt(buf, end + 1, G.SpellItems(items[1..])) && G.WellItems(items[1..])
            && end + 1 + |G.SpellItems(items[1..])| == off + |G.SpellItems(items)|)
  {
    hide TextAt, G.Spell, G.Well, SkipBlanks, NumberEnds, G.Blank;
    var item := items[0];
    var rest := if |items| == 1 then [] else [COMMA] + G.SpellItems(items[1..]);
    assert G.SpellItems(items) == G.SpellItem(item) + rest;
    TextSplit(buf, off, G.SpellItem(item), rest);
    TextSplit(buf, off, item.before, G.Spell(item.value) + item.after);
    TextSplit(buf, off + |item.before|, G.Spell(item.value), item.after);
    var next := off + |item.before| + |G.Spell(item.value)|;
    var end := next + |item.after|;
    if |items| > 1 {
      TextSplit(buf, end, [COMMA], G.SpellItems(items[1..]));
      TextByte(buf, end, [COMMA], 0);
    }
    NumberEndsAtPad(buf, next, item.after);
    PadSkipped(buf, next, item.after);
  }

  lemma EntryPlaced(buf: bytes, off: nat, entries: seq<G.Entry>)
    requires entries != [] && G.WellEntries(entries) && TextAt(buf, off, G.SpellEntries(entries))
    requires ByteAt(buf, off + |G.SpellEntries(entries)|, CLOSE_OBJECT)
    ensures var e := entries[0];
      var at := off + |e.before|;
      var afterKey := at + |G.SpellString(e.key)|;
      var colon := afterKey + |e.beforeColon|;
      var value := colon + 1 + |e.afterColon|;
      var next := value + |G.Spell(e.value)|;
      var end := next + |e.after|;
      && TextAt(buf, off, e.before) && TextAt(buf, at, G.SpellString(e.key)) && ByteAt(buf, colon, COLON)
      && G.Blank(e.before) && G.WellString(e.key) && G.Well(e.value)
      && SkipBlanks(buf, afterKey) == colon && SkipBlanks(buf, colon + 1) == value
      && TextAt(buf, value, G.Spell(e.value)) && NumberEnds(buf, next) && SkipBlanks(buf, next) == end
      && end < |buf| && buf[end] > 32
      && (|entries| == 1 ==> end == off + |G.SpellEntries(entries)|)
      && (|entries| > 1 ==>
            && buf[end] == COMMA && TextAt(buf, end + 1, G.SpellEntries(entries[1..])) && G.WellEntries(entries[1..])
            && end + 1 + |G.SpellEntries(entries[1..])| == off + |G.SpellEntries(entries)|)
  {
    hide TextAt, G.Spell, G.Well, SkipBlanks, NumberEnds, G.Blank, G.SpellString, G.WellString;
    var e := entries[0];
    var rest := if |entries| == 1 then [] else [COMMA] + G.SpellEntries(entries[1..]);
    assert G.SpellEntries(entries) == G.SpellEntry(e) + rest;
    TextSplit(buf, off, G.SpellEntry(e), rest);
    EntryParts(buf, off, e);
    var next := off + |e.before| + |G.SpellString(e.key)| + |e.beforeColon| + 1 + |e.afterColon| + |G.Spell(e.value)|;
    var end := next + |e.after|;
    if |entries| > 1 {
      TextSplit(buf, end, [COMMA], G.SpellEntries(entries[1..]));
      TextByte(buf, end, [COMMA], 0);
    }
    NumberEndsAtPad(buf, next, e.after);
    PadSkipped(buf, next, e.after);
  }

  lemma EntryParts(buf: bytes, off: nat, e: G.Entry)
    requires G.WellEntry(e) && TextAt(buf, off, G.SpellEntry(e))
    ensures var at := off + |e.before|;
      var afterKey := at + |G.SpellString(e.key)|;
      var colon := afterKey + |e.beforeColon|;
      var value := colon + 1 + |e.afterColon|;
      var next := value + |G.Spell(e.value)|;
      && next + |e.after| == off + |G.SpellEntry(e)|
      && TextAt(buf, off, e.before) && TextAt(buf, at, G.SpellString(e.key)) && ByteAt(buf, colon, COLON)
      && SkipBlanks(buf, afterKey) == colon && SkipBlanks(buf, colon + 1) == value
      && TextAt(buf, value, G.Spell(e.value)) && TextAt(buf, next, e.after)
  {
    hide TextAt, G.Spell, G.Well, SkipBlanks, G.Blank, G.SpellString, G.WellString;
    var key, value := G.SpellString(e.key), G.Spell(e.value);
    var v := e.afterColon + (value + e.after);
    TextSplit(buf, off, e.before, key + (e.beforeColon + ([COLON] + v)));
    var at := off + |e.before|;
    TextSplit(buf, at, key, e.beforeColon + ([COLON] + v));
    TextSplit(buf, at + |key|, e.beforeColon, [COLON] + v);
    var colon := at + |key| + |e.beforeColon|;
    TextSplit(buf, colon, [COLON], v);
    TextByte(buf, colon, [COLON], 0);
    TextSplit(buf, colon + 1, e.afterColon, value + e.after);
    TextSplit(buf, colon + 1 + |e.afterColon|, value, e.after);
    FirstByteOf(e.value);
    TextByte(buf, colon + 1 + |e.afterColon|, value, 0);
    PadSkipped(buf, at + |key|, e.beforeColon);
    PadSkipped(buf, colon + 1, e.afterColon);
  }

  // ----- what is written is read -----

  lemma {:induction false} ValueReads(buf: bytes, off: nat, w: G.Value, depth: nat)
    requires G.Well(w) && depth + G.Levels(w) <= NESTING_LIMIT
    requires TextAt(buf, off, G.Spell(w)) && NumberEnds(buf, off + |G.Spell(w)|)
    ensures ParseValue(buf, off, depth) == Done(G.Tree(w), off + |G.Spell(w)|)
    decreases w, 1
  {
    hide TextAt, NumberEnds, ParseValue, G.SpellNum, G.NumOf, G.WellNum, G.SpellChars, G.WellString, G.StringOf,
        G.SpellItems, G.SpellEntries, G.WellItems, G.WellEntries, G.ItemLevels, G.EntryLevels, G.Blank, ParseString;
    match w
    case Word(v) => WordsStart(v); KeywordReads(buf, off, v, depth);
    case Number(n) => NumReads(buf, off, n, depth);
    case Text(cs) =>
      TextByte(buf, off, G.SpellString(cs), 0);
      StringReads(buf, off, cs);
      Chosen(buf, off, depth);
    case List(open, items) =>
      ListReads(buf, off, open, items, depth);
    case Record(open, entries) =>
      RecordReads(buf, off, open, entries, depth);
  }

  /** Which reader a value's first byte chooses. */
  lemma Chosen(buf: bytes, off: nat, depth: nat)
    requires off < |buf|
    ensures buf[off] == QUOTE ==>
      ParseValue(buf, off, depth) == match ParseString(buf,
          off) { case Fail => Fail case Done(s, next) => Done(String(s), next) }
    ensures buf[off] == OPEN_ARRAY ==> ParseValue(buf, off, depth) == ParseArray(buf, off, depth)
    ensures buf[off] == OPEN_OBJECT ==> ParseValue(buf, off, depth) == ParseObject(buf, off, depth)
  {
    hide ParseString, ParseArray, ParseObject, ParseNumber, TextAt;
    if buf[off] == QUOTE || buf[off] == OPEN_ARRAY || buf[off] == OPEN_OBJECT { NoKeyword(buf, off); }
  }

  lemma {:induction false} ListReads(buf: bytes, off: nat, open: bytes, items: seq<G.Item>, depth: nat)
    requires G.Blank(open) && (items != [] ==> open == []) && G.WellItems(items)
    requires depth + 1 + G.ItemLevels(items) <= NESTING_LIMIT
    requires TextAt(buf, off, [OPEN_ARRAY] + (open + (G.SpellItems(items) + [CLOSE_ARRAY])))
    ensures ParseValue(buf, off, depth)
      == Done(Array(G.Trees(items)), off + |[OPEN_ARRAY] + (open + (G.SpellItems(items) + [CLOSE_ARRAY]))|)
    decreases items, 1
  {
    hide TextAt, ParseValue, ParseItems, G.SpellItems, G.WellItems, G.ItemLevels, G.Trees, SkipBlanks, G.Blank,
        NumberEnds;
    var body := G.SpellItems(items);
    TextSplit(buf, off, [OPEN_ARRAY], open + (body + [CLOSE_ARRAY]));
    TextByte(buf, off, [OPEN_ARRAY], 0);
    TextSplit(buf, off + 1, open, body + [CLOSE_ARRAY]);
    TextSplit(buf, off + 1 + |open|, body, [CLOSE_ARRAY]);
    var end := off + 1 + |open| + |body|;
    TextByte(buf, end, [CLOSE_ARRAY], 0);
    Chosen(buf, off, depth);
    NoItems(items);
    if items == [] {
      PadSkipped(buf, off + 1, open);
    } else {
      ItemPlaced(buf, off + 1, items);
      FirstByteOf(items[0].value);
      TextByte(buf, off + 1 + |items[0].before|, G.Spell(items[0].value), 0);
      PadSkipped(buf, off + 1, items[0].before);
      ItemsRead(buf, off + 1, items, depth + 1);
    }
  }

  lemma NoItems(items: seq<G.Item>)
    ensures items == [] ==> G.SpellItems(items) == [] && G.WellItems(items) && G.Trees(items) == []
  {
  }

  lemma ItemsUnfold(items: seq<G.Item>)
    requires items != [] && G.WellItems(items)
    ensures G.Well(items[0].value) && G.WellItems(items[1..])
    ensures G.Trees(items) == [G.Tree(items[0].value)] + G.Trees(items[1..])
    ensures G.Levels(items[0].value) <= G.ItemLevels(items) && G.ItemLevels(items[1..]) <= G.ItemLevels(items)
  {
  }

  lemma {:induction false} ItemsRead(buf: bytes, off: nat, items: seq<G.Item>, depth: nat)
    requires items != [] && G.WellItems(items) && depth + G.ItemLevels(items) <= NESTING_LIMIT
    requires TextAt(buf, off, G.SpellItems(items)) && ByteAt(buf, off + |G.SpellItems(items)|, CLOSE_ARRAY)
    ensures ParseItems(buf, off + |items[0].before|, depth) == Done(G.Trees(items), off + |G.SpellItems(items)|)
    decreases items, 0
  {
    hide TextAt, ParseValue, G.SpellItems, G.WellItems, G.ItemLevels, G.Trees, SkipBlanks, G.Blank, NumberEnds, G.Spell,
        G.Tree, G.Well, G.Levels;
    ItemPlaced(buf, off, items);
    ItemsUnfold(items);
    var at := off + |items[0].before|;
    ValueReads(buf, at, items[0].value, depth);
    var end := at + |G.Spell(items[0].value)| + |items[0].after|;
    if |items| > 1 {
      var rest := items[1..];
      ItemPlaced(buf, end + 1, rest);
      FirstByteOf(rest[0].value);
      TextByte(buf, end + 1 + |rest[0].before|, G.Spell(rest[0].value), 0);
      PadSkipped(buf, end + 1, rest[0].before);
      ItemsRead(buf, end + 1, rest, depth);
    } else {
      NoItems(items[1..]);
      assert [G.Tree(items[0].value)] + [] == [G.Tree(items[0].value)];
    }
  }

  lemma {:induction false} RecordReads(buf: bytes, off: nat, open: bytes, entries: seq<G.Entry>, depth: nat)
    requires G.Blank(open) && (entries != [] ==> open == []) && G.WellEntries(entries)
    requires depth + 1 + G.EntryLevels(entries) <= NESTING_LIMIT
    requires TextAt(buf, off, [OPEN_OBJECT] + (open + (G.SpellEntries(entries) + [CLOSE_OBJECT])))
    ensures ParseValue(buf, off, depth)
      == Done(Object(G.Members(entries)), off + |[OPEN_OBJECT] + (open + (G.SpellEntries(entries) + [CLOSE_OBJECT]))|)
    decreases entries, 1
  {
    hide TextAt, ParseValue, ParseMembers, G.SpellEntries, G.WellEntries, G.EntryLevels, G.Members, SkipBlanks, G.Blank,
        NumberEnds, G.SpellChars;
    var body := G.SpellEntries(entries);
    TextSplit(buf, off, [OPEN_OBJECT], open + (body + [CLOSE_OBJECT]));
    TextByte(buf, off, [OPEN_OBJECT], 0);
    TextSplit(buf, off + 1, open, body + [CLOSE_OBJECT]);
    TextSplit(buf, off + 1 + |open|, body, [CLOSE_OBJECT]);
    var end := off + 1 + |open| + |body|;
    TextByte(buf, end, [CLOSE_OBJECT], 0);
    Chosen(buf, off, depth);
    NoEntries(entries);
    if entries == [] {
      PadSkipped(buf, off + 1, open);
    } else {
      EntryPlaced(buf, off + 1, entries);
      TextByte(buf, off + 1 + |entries[0].before|, G.SpellString(entries[0].key), 0);
      PadSkipped(buf, off + 1, entries[0].before);
      EntriesRead(buf, off + 1, entries, depth + 1);
    }
  }

  lemma NoEntries(entries: seq<G.Entry>)
    ensures entries == [] ==> G.SpellEntries(entries) == [] && G.WellEntries(entries) && G.Members(entries) == []
  {
  }

  lemma EntriesUnfold(entries: seq<G.Entry>)
    requires entries != [] && G.WellEntries(entries)
    ensures G.WellString(entries[0].key) && G.Well(entries[0].value) && G.WellEntries(entries[1..])
    ensures G.Members(entries)
      == [Member(G.StringOf(entries[0].key), G.Tree(entries[0].value))] + G.Members(entries[1..])
    ensures G.Levels(entries[0].value) <= G.EntryLevels(entries)
    ensures G.EntryLevels(entries[1..]) <= G.EntryLevels(entries)
  {
  }

  lemma {:induction false} EntriesRead(buf: bytes, off: nat, entries: seq<G.Entry>, depth: nat)
    requires entries != [] && G.WellEntries(entries) && depth + G.EntryLevels(entries) <= NESTING_LIMIT
    requires TextAt(buf, off, G.SpellEntries(entries)) && ByteAt(buf, off + |G.SpellEntries(entries)|, CLOSE_OBJECT)
    ensures ParseMembers(buf, off + |entries[0].before|, depth)
      == Done(G.Members(entries), off + |G.SpellEntries(entries)|)
    decreases entries, 0
  {
    hide TextAt, ParseValue, ParseString, G.SpellEntries, G.WellEntries, G.EntryLevels, G.Members, SkipBlanks, G.Blank,
        NumberEnds, G.Spell, G.Tree, G.Well, G.Levels, G.SpellChars, G.StringOf, G.WellString;
    EntryPlaced(buf, off, entries);
    EntriesUnfold(entries);
    var e := entries[0];
    var at := off + |e.before|;
    StringReads(buf, at, e.key);
    var value := at + |G.SpellString(e.key)| + |e.beforeColon| + 1 + |e.afterColon|;
    ValueReads(buf, value, e.value, depth);
    var end := value + |G.Spell(e.value)| + |e.after|;
    if |entries| > 1 {
      var rest := entries[1..];
      EntryPlaced(buf, end + 1, rest);
      TextByte(buf, end + 1 + |rest[0].before|, G.SpellString(rest[0].key), 0);
      PadSkipped(buf, end + 1, rest[0].before);
      EntriesRead(buf, end + 1, rest, depth);
    } else {
      NoEntries(entries[1..]);
      assert G.Members(entries) == [Member(G.StringOf(e.key), G.Tree(e.value))];
    }
  }

  // ----- documents -----

  lemma {:induction false} DocBlanksSkipped(doc: bytes, i: nat, pad: bytes)
    requires TextAt(doc, i, pad) && G.SpaceOnly(pad) && (i + |pad| == |doc| || doc[i + |pad|] == NUL)
    ensures SkipDocBlanks(doc, i) == i + |pad|
    decreases |pad|
  {
    if pad != [] {
      TextByte(doc, i, pad, 0);
      assert pad == [pad[0]] + pad[1..];
      TextSplit(doc, i, [pad[0]], pad[1..]);
      DocBlanksSkipped(doc, i + 1, pad[1..]);
    }
  }

  /** Where the parts of a document stand. */
  lemma DocumentParts(d: G.Document, doc: bytes)
    requires G.WellDocument(d) && doc == G.SpellDocument(d)
    ensures var mark := if d.mark then 3 else 0;
      var at := mark + |d.before|;
      var next := at + |G.Spell(d.value)|;
      var end := next + |d.after|;
      && TextAt(doc, mark, d.before) && TextAt(doc, at, G.Spell(d.value)) && TextAt(doc, next, d.after)
      && end <= |doc| && (end < |doc| ==> doc[end] == NUL) && at < |doc| && doc[at] > 32
  {
    hide TextAt, G.Spell, G.Well, G.Levels, G.SpaceOnly, G.Blank;
    FiveParts(if d.mark then [0xef, 0xbb, 0xbf] else [], d.before, G.Spell(d.value), d.after, d.tail, doc);
    FirstByteOf(d.value);
    var at := (if d.mark then 3 else 0) + |d.before|;
    TextByte(doc, at, G.Spell(d.value), 0);
    var end := at + |G.Spell(d.value)| + |d.after|;
    if d.tail != [] { TextByte(doc, end, d.tail, 0); }
  }

  lemma FiveParts(a: bytes, b: bytes, c: bytes, d: bytes, e: bytes, doc: bytes)
    requires doc == a + (b + (c + (d + e)))
    ensures TextAt(doc, |a|, b) && TextAt(doc, |a| + |b|, c) && TextAt(doc, |a| + |b| + |c|, d)
    ensures TextAt(doc, |a| + |b| + |c| + |d|, e) && |doc| == |a| + |b| + |c| + |d| + |e|
  {
    hide TextAt;
    TextHere(doc, a, b + (c + (d + e)));
    TextSplit(doc, |a|, b, c + (d + e));
    TextSplit(doc, |a| + |b|, c, d + e);
    TextSplit(doc, |a| + |b| + |c|, d, e);
  }

  /**
   Every text that writes a tree of at most 64 levels, with whatever blanks and spellings, parses to that tree.
   */
  lemma WrittenTextParses(d: G.Document, maxSize: nat)
    requires G.WellDocument(d) && |G.SpellDocument(d)| <= maxSize
    ensures ParseDocument(G.SpellDocument(d), maxSize) == Some(G.Tree(d.value))
  {
    hide TextAt, ParseValue, G.Spell, G.Tree, G.Well, G.Levels, SkipBlanks, G.Blank, G.SpaceOnly, NumberEnds,
        SkipDocBlanks, G.SpellDocument;
    var doc := G.SpellDocument(d);
    var mark := if d.mark then 3 else 0;
    DocumentParts(d, doc);
    var at := mark + |d.before|;
    var next := at + |G.Spell(d.value)|;
    PadSkipped(doc, mark, d.before);
    EndsAtSpace(doc, next, d.after);
    ValueReads(doc, at, d.value, 0);
    DocBlanksSkipped(doc, next, d.after);
    MarkSeen(d, doc);
  }

  lemma EndsAtSpace(doc: bytes, i: nat, pad: bytes)
    requires TextAt(doc, i, pad) && G.SpaceOnly(pad) && (i + |pad| == |doc| || doc[i + |pad|] == NUL)
    ensures NumberEnds(doc, i)
  {
    if pad != [] { TextByte(doc, i, pad, 0); }
  }

  lemma MarkSeen(d: G.Document, doc: bytes)
    requires G.WellDocument(d) && doc == G.SpellDocument(d)
    ensures (|doc| > 4 && doc[..3] == [0xef, 0xbb, 0xbf]) <==> d.mark
  {
    hide G.Spell, G.Well, G.Levels, G.SpaceOnly;
    FirstByteOf(d.value);
    FirstIsAscii(d.value);
    if !d.mark { assert doc[0] == if d.before != [] then d.before[0] else G.Spell(d.value)[0]; }
  }

  lemma FirstIsAscii(w: G.Value)
    requires G.Well(w)
    ensures |G.Spell(w)| > 0 && G.Spell(w)[0] < 128
  {
    hide G.SpellNum, G.WellNum, G.SpellChars, G.SpellItems, G.SpellEntries, G.WellItems, G.WellEntries, G.WellString;
    match w
    case Number(n) => NumberIsRead(n); NumberBytes(n);
    case Word(v) => WordsStart(v);
    case _ =>
  }
}
