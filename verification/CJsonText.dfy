/** String literals of JSON text: what \u escapes mean, and how much room reading and writing a string takes. */
module CJsonText {
  import opened Bytes
  import opened CJsonSpec
  import opened CJsonLaws

  // ----- UTF-8 and UTF-16 -----

  predicate IsScalar(c: nat) { c <= 0x10ffff && !HighSurrogate(c) && !LowSurrogate(c) }

  predicate IsTail(b: byte) { 0x80 <= b <= 0xbf }

  /** The bits of a byte above `base`, weighted. */
  function Bits(b: byte, base: int, weight: nat): int { (b - base) * weight }

  /** The code point a well-formed UTF-8 sequence stands for: the syntax of section 4 of RFC 3629. */
  function Utf8Meaning(s: bytes): Option<int> {
    if |s| == 1 && s[0] <= 0x7f then Some(Bits(s[0], 0, 1))
    else if |s| == 2 && 0xc2 <= s[0] <= 0xdf && IsTail(s[1]) then Some(Bits(s[0], 0xc0, 64) + Bits(s[1], 0x80, 1))
    else if |s| == 3 && IsTail(s[1]) && IsTail(s[2])
            && ((s[0] == 0xe0 && 0xa0 <= s[1]) || 0xe1 <= s[0] <= 0xec || (s[0] == 0xed && s[1] <= 0x9f)
                || 0xee <= s[0] <= 0xef)
    then Some(Bits(s[0], 0xe0, 4096) + Bits(s[1], 0x80, 64) + Bits(s[2], 0x80, 1))
    else if |s| == 4 && IsTail(s[1]) && IsTail(s[2]) && IsTail(s[3])
            && ((s[0] == 0xf0 && 0x90 <= s[1]) || 0xf1 <= s[0] <= 0xf3 || (s[0] == 0xf4 && s[1] <= 0x8f))
    then Some(Bits(s[0], 0xf0, 262144) + Bits(s[1], 0x80, 4096) + Bits(s[2], 0x80, 64) + Bits(s[3], 0x80, 1))
    else None
  }

  lemma Utf8IsWellFormed(c: nat)
    requires IsScalar(c)
    ensures Utf8Meaning(Utf8(c)) == Some(c)
  {
    if c < 0x80 {
    } else if c < 0x800 {
    } else if c < 0x10000 {
      ThreeBytes(c);
    } else {
      FourBytes(c);
    }
  }

  lemma ThreeBytes(c: nat)
    requires IsScalar(c) && 0x800 <= c < 0x10000
    ensures Utf8Meaning(Utf8(c)) == Some(c)
  {
    assert c / 64 == 64 * (c / 4096) + c / 64 % 64;
    assert c == 64 * (c / 64) + c % 64;
  }

  lemma FourBytes(c: nat)
    requires 0x10000 <= c <= 0x10ffff
    ensures Utf8Meaning(Utf8(c)) == Some(c)
  {
    assert c / 4096 == 64 * (c / 262144) + c / 4096 % 64;
    assert c / 64 == 64 * (c / 4096) + c / 64 % 64;
    assert c == 64 * (c / 64) + c % 64;
  }

  function UnitText(u: nat): bytes
    requires u <= 0xffff
  {
    [BACKSLASH, 117, HexDigit(u / 4096), HexDigit(u / 256 % 16), HexDigit(u / 16 % 16), HexDigit(u % 16)]
  }

  /** How RFC 8259 section 7 escapes a code point: its UTF-16 code units, each as a \uXXXX. */
  function EscapedScalar(c: nat): bytes
    requires IsScalar(c)
  {
    if c < 0x10000 then UnitText(c)
    else UnitText(0xd800 + (c - 0x10000) / 1024) + UnitText(0xdc00 + (c - 0x10000) % 1024)
  }

  lemma HexReads(buf: bytes, i: nat, u: nat)
    requires u <= 0xffff && TextAt(buf, i, UnitText(u))
    ensures i + 6 <= |buf| && buf[i] == BACKSLASH && buf[i + 1] == 117 && Hex4(buf, i + 2) == u
  {
    hide HexDigit, HexValue;
    var t := UnitText(u);
    TextByte(buf, i, t, 0);
    TextByte(buf, i, t, 1);
    TextByte(buf, i, t, 2);
    TextByte(buf, i, t, 3);
    TextByte(buf, i, t, 4);
    TextByte(buf, i, t, 5);
    HexDigitValue(u / 4096);
    HexDigitValue(u / 256 % 16);
    HexDigitValue(u / 16 % 16);
    HexDigitValue(u % 16);
    HexParts(u);
  }

  lemma HexParts(u: nat)
    ensures u == 4096 * (u / 4096) + 256 * (u / 256 % 16) + 16 * (u / 16 % 16) + u % 16
  {
    assert u / 16 == 16 * (u / 256) + u / 16 % 16;
    assert u / 256 == 16 * (u / 4096) + u / 256 % 16;
  }

  /** Every code point, escaped as the RFC says, reads as its UTF-8 encoding. */
  lemma EscapedScalarReads(buf: bytes, i: nat, end: nat, c: nat)
    requires IsScalar(c) && TextAt(buf, i, EscapedScalar(c)) && i + |EscapedScalar(c)| <= end < |buf|
    ensures buf[i] == BACKSLASH && EscapeAt(buf, i, end) == Some(Piece(Utf8(c), |EscapedScalar(c)|))
  {
    hide Hex4, UnitText, TextAt, Utf8;
    if c < 0x10000 {
      HexReads(buf, i, c);
      UnitLength(c);
    } else {
      var high, low := 0xd800 + (c - 0x10000) / 1024, 0xdc00 + (c - 0x10000) % 1024;
      TextSplit(buf, i, UnitText(high), UnitText(low));
      UnitLength(high);
      UnitLength(low);
      HexReads(buf, i, high);
      HexReads(buf, i + 6, low);
      assert 0x10000 + (high - 0xd800) * 1024 + (low - 0xdc00) == c;
    }
  }

  lemma UnitLength(u: nat)
    requires u <= 0xffff
    ensures |UnitText(u)| == 6
  {
  }

  /** Whatever an accepted \u escape with hex digits yields is the well-formed UTF-8 of one code point. */
  lemma AcceptedEscapeIsWellFormed(buf: bytes, i: nat, end: nat)
    requires i < end < |buf| && Utf16Literal(buf, i, end).Some?
    ensures Utf8Meaning(Utf16Literal(buf, i, end).value.out).Some?
    ensures var c := Utf8Meaning(Utf16Literal(buf, i, end).value.out).value;
            if Utf16Literal(buf, i, end).value.used == 6 then c == Hex4(buf, i + 2)
            else c == 0x10000 + (Hex4(buf, i + 2) - 0xd800) * 1024 + (Hex4(buf, i + 8) - 0xdc00)
  {
    hide Hex4, Utf8, Utf8Meaning;
    var first := Hex4(buf, i + 2);
    if HighSurrogate(first) {
      Utf8IsWellFormed(0x10000 + (first - 0xd800) * 1024 + (Hex4(buf, i + 8) - 0xdc00));
    } else {
      Utf8IsWellFormed(first);
    }
  }

  // ----- the room a string takes -----

  /** How many bytes escaping adds to one byte. */
  function ExtraByte(b: byte): nat {
    if EscapeLetter(b).Some? then 1 else if b < 32 then 5 else 0
  }

  function Extra(s: bytes): nat {
    if s == [] then 0 else Extra(s[..|s| - 1]) + ExtraByte(s[|s| - 1])
  }

  lemma {:induction false} EscapeSnoc(s: bytes, b: byte)
    ensures Escape(s + [b]) == Escape(s) + EscapeByte(b)
  {
    if s == [] {
      assert s + [b] == [b] && Escape([b][1..]) == [];
    } else {
      EscapeSnoc(s[1..], b);
      assert (s + [b])[1..] == s[1..] + [b];
      assert EscapeByte(s[0]) + (Escape(s[1..]) + EscapeByte(b)) == EscapeByte(s[0]) + Escape(s[1..]) + EscapeByte(b);
    }
  }

  /** The printer's first pass counts exactly what its second pass writes. */
  lemma {:induction false} EscapedSize(s: bytes)
    ensures |Escape(s)| == |s| + Extra(s)
    decreases |s|
  {
    if s != [] {
      var front := s[..|s| - 1];
      EscapedSize(front);
      EscapeSnoc(front, s[|s| - 1]);
      assert s == front + [s[|s| - 1]];
    }
  }

  /** How many escapes a left-to-right scan from `p` meets before `i`; a backslash and its successor are one step. */
  function ScanEscapes(buf: bytes, p: nat, i: nat): nat
    decreases i - p
  {
    if p >= i || p >= |buf| then 0
    else if buf[p] == BACKSLASH then 1 + ScanEscapes(buf, p + 2, i)
    else ScanEscapes(buf, p + 1, i)
  }

  /** Escapes start at backslashes, and at most every second byte. */
  lemma {:induction false} ScanGrowth(buf: bytes, p: nat, i: nat, k: nat)
    requires i + k <= |buf|
    ensures ScanEscapes(buf, p, i) <= ScanEscapes(buf, p, i + k) <= ScanEscapes(buf, p, i) + (k + 1) / 2
    ensures k == 1 && buf[i] != BACKSLASH ==> ScanEscapes(buf, p, i + k) == ScanEscapes(buf, p, i)
    decreases i + k - p
  {
    if p < i {
      ScanGrowth(buf, if buf[p] == BACKSLASH then p + 2 else p + 1, i, k);
    } else if p < i + k {
      ScanFew(buf, p, i + k);
    }
  }

  lemma {:induction false} ScanFew(buf: bytes, p: nat, i: nat)
    requires p <= i <= |buf| + 1
    ensures ScanEscapes(buf, p, i) <= (i - p + 1) / 2
    decreases i - p
  {
    if p < i && p < |buf| {
      if buf[p] == BACKSLASH {
        if p + 2 <= i { ScanFew(buf, p + 2, i); }
      } else {
        ScanFew(buf, p + 1, i);
      }
    }
  }
}
