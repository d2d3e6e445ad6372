/** The parser and printer of src/cjson/cJSON.c as they work on their buffers. */
module CJson {
  import opened Bytes
  import opened CJsonSpec
  import opened CJsonLaws
  import opened CJsonText

  function ValueOf<T>(p: Parsed<T>): Option<T> { if p.Done? then Some(p.value) else None }

  lemma SkipAgain(buf: bytes, i: nat)
    ensures SkipBlanks(buf, SkipBlanks(buf, i)) == SkipBlanks(buf, i)
  {
    var n := SkipBlanks(buf, i);
    if i < |buf| && buf[n] > 32 { SkipTo(buf, n, n); }
  }

  function Prepend<T>(front: seq<T>, p: Parsed<seq<T>>): Parsed<seq<T>> {
    if p.Done? then Done(front + p.value, p.next) else Fail
  }

  /** parse_buffer: the text, how far it is read, and how many containers are open. */
  class ParseBuffer {
    const content: bytes
    var offset: nat
    var depth: nat

    constructor (content: bytes)
      ensures this.content == content && offset == 0 && depth == 0
    {
      this.content := content;
      offset, depth := 0, 0;
    }

    /** buffer_skip_whitespace. */
    method SkipWhitespace()
      modifies this`offset
      ensures offset == SkipBlanks(content, old(offset))
    {
      if offset >= |content| { return; }
      while offset < |content| && content[offset] <= 32
        invariant old(offset) <= offset <= |content|
        invariant NonBlank(content, offset) == NonBlank(content, old(offset))
      {
        offset := offset + 1;
      }
      if offset == |content| {
        offset := offset - 1;
      }
    }

    /** The part of parse_number that copies the number's bytes, at most 63, for the conversion. */
    method NumberBytes() returns (text: array<byte>, n: nat)
      requires offset <= |content|
      ensures n == NumberRun(content, offset, 63) && n < text.Length && text[n] == NUL
      ensures text[..n] == content[offset..offset + n]
    {
      text, n := new byte[64], 0;
      while n < 63 && offset + n < |content| && IsNumberByte(content[offset + n])
        invariant n <= 63 && offset + n <= |content|
        invariant text[..n] == content[offset..offset + n]
        invariant n + NumberRun(content, offset + n, 63 - n) == NumberRun(content, offset, 63)
      {
        text[n] := content[offset + n];
        n := n + 1;
      }
      text[n] := NUL;
    }

    /** parse_number: the offset advances by what the conversion reads. */
    method ParseNumber() returns (r: Option<Json>)
      requires offset <= |content|
      modifies this`offset
      ensures var p := CJsonSpec.ParseNumber(content, old(offset));
              r == ValueOf(p) && offset == if p.Done? then p.next else old(offset)
    {
      var text, n := NumberBytes();
      hide FloatPrefix, NumberValue, NumberRun;
      var read := FloatPrefix(text[..n]);
      if read == 0 { return None; }
      r := Some(NumberValue(text[..n][..read]));
      offset := offset + read;
    }

    /** parse_hex4. */
    method ParseHex4(at: nat) returns (h: nat)
      requires at + 4 <= |content|
      ensures h == Hex4(content, at)
    {
      h := 0;
      var i := 0;
      while i < 4
        invariant i <= 4
        invariant HexPrefix(content, at, i).Some? && h == HexPrefix(content, at, i).value * (if i < 4 then 16 else 1)
      {
        var digit := HexValue(content[at + i]);
        if digit.None? {
          HexSpoiled(content, at, i);
          return 0;
        }
        h := h + digit.value;
        i := i + 1;
        if i < 4 {
          h := h * 16;
        }
      }
      HexWhole(content, at);
    }

    /** utf16_literal_to_utf8: writes the UTF-8 bytes of the escape at `at`; `used` is 0 when it is refused. */
    method Utf16LiteralToUtf8(at: nat, end: nat, output: array<byte>, out: nat) returns (used: nat, next: nat)
      requires at < end <= |content|
      requires Utf16Literal(content, at, end).Some? ==>
                 out + |Utf16Literal(content, at, end).value.out| <= output.Length
      requires out <= output.Length
      modifies output
      ensures out <= next <= output.Length
      ensures var p := Utf16Literal(content, at, end);
              if p.None? then used == 0 && output[..] == old(output[..])
              else
                && used == p.value.used && next == out + |p.value.out|
                && output[..next] == old(output[..out]) + p.value.out
    {
      used, next := 0, out;
      if end - at < 6 { return; }
      var first := ParseHex4(at + 2);
      if LowSurrogate(first) { return; }
      var codepoint := first;
      var length := 6;
      if HighSurrogate(first) {
        length := 12;
        if end - (at + 6) < 6 { return; }
        if content[at + 6] != BACKSLASH || content[at + 7] != 117 { return; }
        var second := ParseHex4(at + 8);
        if !LowSurrogate(second) { return; }
        codepoint := 0x10000 + (first - 0xd800) * 1024 + (second - 0xdc00);
      }
      assert Utf16Literal(content, at, end) == Some(Piece(Utf8(codepoint), length));
      next := EncodeUtf8(codepoint, output, out);
      used := length;
    }

    /** The escape at `at`: writes its bytes at `out`; `used` is 0 when it is refused. */
    method UnescapeOne(at: nat, end: nat, output: array<byte>, out: nat) returns (used: nat, next: nat)
      requires at < end < |content| && content[at] == BACKSLASH && out < output.Length
      requires EscapeAt(content, at, end).Some? ==> out + |EscapeAt(content, at, end).value.out| <= output.Length
      modifies output
      ensures out <= next <= output.Length
      ensures var p := EscapeAt(content, at, end);
              if p.None? then used == 0
              else
                && used == p.value.used && next == out + |p.value.out|
                && output[..next] == old(output[..out]) + p.value.out
    {
      hide Utf16Literal;
      var b := content[at + 1];
      if b == 117 {
        used, next := Utf16LiteralToUtf8(at, end, output, out);
        return;
      }
      used, next := 0, out;
      if b !in [98, 102, 110, 114, 116, 34, 92, 47] { return; }
      output[out] := Letter(b);
      used, next := 2, out + 1;
      assert output[..next] == old(output[..out]) + [Letter(b)];
    }

    /** The first pass of parse_string: the closing quote, and the number of escapes before it. */
    method ScanString() returns (ok: bool, end: nat, skipped: nat)
      requires offset < |content|
      ensures ok == CloseQuote(content, offset + 1).Some?
      ensures ok ==> end == CloseQuote(content, offset + 1).value && skipped == ScanEscapes(content, offset + 1, end)
    {
      end, skipped := offset + 1, 0;
      ghost var close := CloseQuote(content, offset + 1);
      while end < |content| && content[end] != QUOTE
        invariant CloseQuote(content, end) == close
        invariant close.Some? ==>
                    skipped + ScanEscapes(content, end, close.value) == ScanEscapes(content, offset + 1, close.value)
      {
        if content[end] == BACKSLASH {
          if end + 1 >= |content| { return false, end, skipped; }
          skipped := skipped + 1;
          end := end + 1;
        }
        end := end + 1;
      }
      ok := end < |content|;
    }

    /** The second pass of parse_string: `ok` is false when an escape is refused, at `stop`. */
    method Decode(start: nat, end: nat, skipped: nat, output: array<byte>) returns (ok: bool, out: nat, stop: nat)
      requires start <= end < |content|
      requires skipped == ScanEscapes(content, start, end) && output.Length + skipped == end - start + 2
      modifies output
      ensures ok == Unescape(content, start, end).Some?
      ensures ok ==> out < output.Length && output[..out] == Unescape(content, start, end).value
    {
      hide Unescape, EscapeAt, ScanEscapes;
      var input := start;
      out := 0;
      ScanAtStart(content, start);
      PrependNothing(Unescape(content, start, end));
      while input < end
        invariant start <= input <= end + 1 && out <= output.Length
        invariant RoomLeft(content, start, input, end, skipped, out, output.Length)
        invariant Unescape(content, start, end) == PrependText(output[..out], Unescape(content, input, end))
        decreases end - input
      {
        ghost var before := output[..out];
        StepFits(content, start, input, end, skipped, out, output.Length);
        UnescapeStep(content, input, end, before);
        if content[input] != BACKSLASH {
          output[out] := content[input];
          out := out + 1;
          input := input + 1;
          assert output[..out] == before + [content[input - 1]];
        } else {
          var used, next := UnescapeOne(input, end, output, out);
          if used == 0 { return false, out, input; }
          input, out := input + used, next;
        }
      }
      RoomAtEnd(content, start, input, end, skipped, out, output.Length);
      UnescapeDone(content, input, end, output[..out]);
      return true, out, input;
    }

    /** parse_string: every write lands inside an output sized by the first pass. */
    method ParseString() returns (r: Option<bytes>)
      requires offset < |content|
      modifies this`offset
      ensures var p := CJsonSpec.ParseString(content, old(offset));
              r == ValueOf(p) && (p.Done? ==> offset == p.next)
    {
      hide Unescape, CloseQuote, CString, ScanEscapes;
      var start := offset + 1;
      if content[offset] != QUOTE {
        offset := start;
        return None;
      }
      var ok, end, skipped := ScanString();
      if !ok {
        offset := start;
        return None;
      }
      ScanFew(content, start, end);
      var output := new byte[(end - offset) - skipped + 1];
      var out, stop;
      ok, out, stop := Decode(start, end, skipped, output);
      if !ok {
        offset := stop;
        return None;
      }
      ghost var text := output[..out];
      output[out] := NUL;
      assert output[..] == text + [NUL] + output[out + 1..];
      TerminatedText(text, output[out + 1..]);
      r := Some(CString(output[..]));
      offset := end + 1;
    }

    method AtText(text: bytes) returns (r: bool)
      ensures r == TextAt(content, offset, text)
    {
      r := offset + |text| <= |content| && content[offset..offset + |text|] == text;
      if offset + |text| <= |content| { TextIsSlice(content, offset, text); }
    }

    /** parse_value. */
    method ParseValue() returns (r: Option<Json>)
      modifies this
      ensures var p := CJsonSpec.ParseValue(content, old(offset), old(depth));
              r == ValueOf(p) && (p.Done? ==> offset == p.next && depth == old(depth))
      decreases |content| - offset, 2
    {
      hide CJsonSpec.ParseNumber, CJsonSpec.ParseString, CJsonSpec.ParseArray, CJsonSpec.ParseObject, TextAt;
      var found := AtText(TEXT_NULL);
      if found {
        offset := offset + 4;
        return Some(Null);
      }
      found := AtText(TEXT_FALSE);
      if found {
        offset := offset + 5;
        return Some(False);
      }
      found := AtText(TEXT_TRUE);
      if found {
        offset := offset + 4;
        return Some(True);
      }
      if offset >= |content| { return None; }
      if content[offset] == QUOTE {
        var s := ParseString();
        r := if s.Some? then Some(String(s.value)) else None;
      } else if content[offset] == MINUS || IsDigit(content[offset]) {
        r := ParseNumber();
      } else if content[offset] == OPEN_ARRAY {
        r := ParseArray();
      } else if content[offset] == OPEN_OBJECT {
        r := ParseObject();
      } else {
        r := None;
      }
    }

    /** parse_array: steps back before the first element, then reads elements while a comma follows. */
    method ParseArray() returns (r: Option<Json>)
      requires offset < |content| && content[offset] == OPEN_ARRAY
      modifies this
      ensures var p := CJsonSpec.ParseArray(content, old(offset), old(depth));
              r == ValueOf(p) && (p.Done? ==> offset == p.next && depth == old(depth))
      decreases |content| - offset, 1
    {
      hide CJsonSpec.ParseValue, ParseItems, SkipBlanks;
      if depth >= NESTING_LIMIT { return None; }
      depth := depth + 1;
      offset := offset + 1;
      SkipWhitespace();
      if offset < |content| && content[offset] == CLOSE_ARRAY {
        depth := depth - 1;
        offset := offset + 1;
        return Some(Array([]));
      }
      if offset >= |content| {
        offset := offset - 1;
        return None;
      }
      ghost var first := offset;
      SkipAgain(content, old(offset) + 1);
      offset := offset - 1;
      var items: seq<Json> := [];
      PrependNone(ParseItems(content, first, depth));
      var more := true;
      while more
        invariant depth == old(depth) + 1 && old(offset) <= offset
        invariant more ==> ParseItems(content, first, depth)
                           == Prepend(items, ParseItems(content, SkipBlanks(content, offset + 1), depth))
        invariant !more ==> ParseItems(content, first, depth) == Done(items, offset)
        decreases more, |content| - offset
      {
        offset := offset + 1;
        SkipWhitespace();
        ItemsStep(content, offset, depth, items);
        var item := ParseValue();
        if item.None? { return None; }
        items := items + [item.value];
        SkipWhitespace();
        more := offset < |content| && content[offset] == COMMA;
      }
      if offset >= |content| || content[offset] != CLOSE_ARRAY { return None; }
      depth := depth - 1;
      offset := offset + 1;
      r := Some(Array(items));
    }

    /** The part of parse_object's loop that reads a key, its colon and its value. */
    method ParseMember() returns (r: Option<Member>)
      requires offset < |content|
      modifies this
      ensures var p := MemberAt(content, old(offset), old(depth));
              r == ValueOf(p) && (p.Done? ==> offset == p.next && depth == old(depth))
      decreases |content| - offset, 3
    {
      hide CJsonSpec.ParseValue, SkipBlanks, CJsonSpec.ParseString;
      var key := ParseString();
      if key.None? { return None; }
      SkipWhitespace();
      if offset >= |content| || content[offset] != COLON { return None; }
      offset := offset + 1;
      SkipWhitespace();
      var value := ParseValue();
      if value.None? { return None; }
      r := Some(Member(key.value, value.value));
    }

    /** parse_object: the same loop over keys, colons and values. */
    method ParseObject() returns (r: Option<Json>)
      requires offset < |content| && content[offset] == OPEN_OBJECT
      modifies this
      ensures var p := CJsonSpec.ParseObject(content, old(offset), old(depth));
              r == ValueOf(p) && (p.Done? ==> offset == p.next && depth == old(depth))
      decreases |content| - offset, 1
    {
      hide CJsonSpec.ParseValue, ParseMembers, SkipBlanks, CJsonSpec.ParseString, MemberAt;
      if depth >= NESTING_LIMIT { return None; }
      depth := depth + 1;
      offset := offset + 1;
      SkipWhitespace();
      if offset < |content| && content[offset] == CLOSE_OBJECT {
        depth := depth - 1;
        offset := offset + 1;
        return Some(Object([]));
      }
      if offset >= |content| {
        offset := offset - 1;
        return None;
      }
      ghost var first := offset;
      SkipAgain(content, old(offset) + 1);
      offset := offset - 1;
      var members: seq<Member> := [];
      PrependNone(ParseMembers(content, first, depth));
      var more := true;
      while more
        invariant depth == old(depth) + 1 && old(offset) <= offset
        invariant more ==> ParseMembers(content, first, depth) == Prepend(members, MembersAfter(content, offset, depth))
        invariant !more ==> ParseMembers(content, first, depth) == Done(members, offset)
        decreases more, |content| - offset
      {
        if offset + 1 >= |content| { return None; }
        offset := offset + 1;
        SkipWhitespace();
        MembersStep(content, offset, depth, members);
        var member := ParseMember();
        if member.None? { return None; }
        members := members + [member.value];
        SkipWhitespace();
        more := offset < |content| && content[offset] == COMMA;
      }
      if offset >= |content| || content[offset] != CLOSE_OBJECT { return None; }
      depth := depth - 1;
      offset := offset + 1;
      r := Some(Object(members));
    }
  }

  lemma TextIsSlice(buf: bytes, off: nat, text: bytes)
    requires off + |text| <= |buf|
    ensures TextAt(buf, off, text) <==> buf[off..off + |text|] == text
  {
    var slice := buf[off..off + |text|];
    assert forall i :: 0 <= i < |text| ==> slice[i] == buf[off + i];
    if TextAt(buf, off, text) { assert slice == text; }
  }

  /** The value of the first `n` hex digits. */
  function HexPrefix(buf: bytes, at: nat, n: nat): Option<nat>
    requires at + n <= |buf|
  {
    if n == 0 then Some(0)
    else
      var front, digit := HexPrefix(buf, at, n - 1), HexValue(buf[at + n - 1]);
      if front.None? || digit.None? then None else Some(16 * front.value + digit.value)
  }

  lemma HexWhole(buf: bytes, at: nat)
    requires at + 4 <= |buf| && HexPrefix(buf, at, 4).Some?
    ensures HexPrefix(buf, at, 4).value == Hex4(buf, at)
  {
    assert HexPrefix(buf, at, 2).Some? && HexPrefix(buf, at, 1).Some?;
    assert HexPrefix(buf, at, 1).value == HexValue(buf[at]).value;
  }

  lemma HexSpoiled(buf: bytes, at: nat, i: nat)
    requires i < 4 && at + 4 <= |buf| && HexValue(buf[at + i]).None?
    ensures Hex4(buf, at) == 0
  {
    assert i == 0 || i == 1 || i == 2 || i == 3;
  }

  /** The tail of utf16_literal_to_utf8: continuation bytes from the last to the second, then the lead byte. */
  method EncodeUtf8(c: nat, output: array<byte>, out: nat) returns (next: nat)
    requires c <= 0x10ffff && out + |Utf8(c)| <= output.Length
    modifies output
    ensures next == out + |Utf8(c)| && output[..next] == old(output[..out]) + Utf8(c)
  {
    var length, mark := 4, 0xf0;
    if c < 0x80 {
      length, mark := 1, 0;
    } else if c < 0x800 {
      length, mark := 2, 0xc0;
    } else if c < 0x10000 {
      length, mark := 3, 0xe0;
    }
    Utf8Parts(c);
    hide Utf8, Sixths, TailByte;
    ghost var text := Utf8(c);
    var rest := WriteTails(c, length, output, out);
    output[out] := mark + rest;
    next := out + length;
    assert output[out..next] == text;
    assert output[..next] == output[..out] + output[out..next];
  }

  method WriteTails(c: nat, length: nat, output: array<byte>, out: nat) returns (rest: nat)
    requires 0 < length && out + length <= output.Length
    modifies output
    ensures rest == Sixths(c, length - 1)
    ensures forall j :: out < j < out + length ==> output[j] == TailByte(c, out + length - 1 - j)
    ensures output[..out] == old(output[..out])
  {
    rest := c;
    var position := length - 1;
    while position > 0
      invariant 0 <= position < length
      invariant rest == Sixths(c, length - 1 - position)
      invariant forall j :: out + position < j < out + length ==> output[j] == TailByte(c, out + length - 1 - j)
      invariant output[..out] == old(output[..out])
    {
      output[out + position] := 0x80 + rest % 64;
      rest := rest / 64;
      position := position - 1;
    }
  }

  /** `c` shifted right by six bits, `n` times. */
  function Sixths(c: nat, n: nat): nat {
    if n == 0 then c else Sixths(c, n - 1) / 64
  }

  /** A continuation byte: six bits of the code point. */
  function TailByte(c: nat, n: nat): byte { 0x80 + Sixths(c, n) % 64 }

  function LeadMark(length: nat): nat {
    if length == 1 then 0 else if length == 2 then 0xc0 else if length == 3 then 0xe0 else 0xf0
  }

  lemma Utf8Parts(c: nat)
    requires c <= 0x10ffff
    ensures |Utf8(c)| == if c < 0x80 then 1 else if c < 0x800 then 2 else if c < 0x10000 then 3 else 4
    ensures Utf8(c)[0] == LeadMark(|Utf8(c)|) + Sixths(c, |Utf8(c)| - 1)
    ensures forall k :: 0 < k < |Utf8(c)| ==> Utf8(c)[k] == TailByte(c, |Utf8(c)| - 1 - k)
  {
    assert Sixths(c, 0) == c && Sixths(c, 1) == c / 64;
    assert Sixths(c, 2) == c / 64 / 64 == c / 4096;
    assert Sixths(c, 3) == c / 64 / 64 / 64 == c / 262144;
  }

  /** What a two-character escape stands for. */
  function Letter(b: byte): byte {
    match b
    case 98 => 8
    case 102 => 12
    case 110 => 10
    case 114 => 13
    case 116 => 9
    case _ => b
  }

  function PrependText(front: bytes, rest: Option<bytes>): Option<bytes> {
    if rest.Some? then Some(front + rest.value) else None
  }

  lemma PrependNothing(rest: Option<bytes>)
    ensures PrependText([], rest) == rest
  {
    if rest.Some? { assert [] + rest.value == rest.value; }
  }

  lemma UnescapeDone(buf: bytes, i: nat, end: nat, front: bytes)
    requires end < |buf| && end <= i
    ensures PrependText(front, Unescape(buf, i, end)) == Some(front)
  {
    assert front + [] == front;
  }

  lemma ScanAtStart(buf: bytes, start: nat)
    ensures ScanEscapes(buf, start, start) == 0
  {
  }

  /** Where decoding goes on after the byte or escape at `i`. */
  lemma UnescapeStep(buf: bytes, i: nat, end: nat, front: bytes)
    requires i < end < |buf|
    ensures buf[i] != BACKSLASH ==>
              PrependText(front, Unescape(buf, i, end)) == PrependText(front + [buf[i]], Unescape(buf, i + 1, end))
    ensures buf[i] == BACKSLASH && EscapeAt(buf, i, end).None? ==> Unescape(buf, i, end).None?
    ensures buf[i] == BACKSLASH && EscapeAt(buf, i, end).Some? ==>
              var piece := EscapeAt(buf, i, end).value;
              PrependText(front, Unescape(buf, i, end))
                  == PrependText(front + piece.out, Unescape(buf, i + piece.used, end))
  {
    hide EscapeAt;
    if buf[i] != BACKSLASH {
      var rest := Unescape(buf, i + 1, end);
      if rest.Some? { assert front + ([buf[i]] + rest.value) == front + [buf[i]] + rest.value; }
    } else if EscapeAt(buf, i, end).Some? {
      var piece := EscapeAt(buf, i, end).value;
      var rest := Unescape(buf, i + piece.used, end);
      if rest.Some? { assert front + (piece.out + rest.value) == front + piece.out + rest.value; }
    }
  }

  /** The bytes written never outnumber the bytes read, less one for each escape the first pass has met so far. */
  ghost predicate RoomLeft(buf: bytes, start: nat, i: nat, end: nat, skipped: nat, out: nat, room: nat) {
    && skipped == ScanEscapes(buf, start, end)
    && room + skipped == end - start + 2
    && out + ScanEscapes(buf, start, i) <= i - start
  }

  lemma StepFits(buf: bytes, start: nat, i: nat, end: nat, skipped: nat, out: nat, room: nat)
    requires start <= i < end < |buf| && RoomLeft(buf, start, i, end, skipped, out, room)
    ensures out < room
    ensures buf[i] != BACKSLASH ==> RoomLeft(buf, start, i + 1, end, skipped, out + 1, room)
    ensures buf[i] == BACKSLASH && EscapeAt(buf, i, end).Some? ==>
              var piece := EscapeAt(buf, i, end).value;
              && RoomLeft(buf, start, i + piece.used, end, skipped, out + |piece.out|, room)
              && out + |piece.out| <= room
  {
    hide ScanEscapes, EscapeAt;
    ScanGrowth(buf, start, i, end - i);
    ScanGrowth(buf, start, i, 1);
    if buf[i] == BACKSLASH && EscapeAt(buf, i, end).Some? {
      var piece := EscapeAt(buf, i, end).value;
      ScanGrowth(buf, start, i, piece.used);
      if i + piece.used <= end {
        ScanGrowth(buf, start, i + piece.used, end - (i + piece.used));
      } else {
        ScanGrowth(buf, start, end, 1);
      }
    }
  }

  lemma RoomAtEnd(buf: bytes, start: nat, i: nat, end: nat, skipped: nat, out: nat, room: nat)
    requires start <= end <= i <= end + 1 && end < |buf| && RoomLeft(buf, start, i, end, skipped, out, room)
    ensures out < room
  {
    hide ScanEscapes;
    ScanGrowth(buf, start, end, i - end);
  }

  lemma TerminatedText(s: bytes, rest: bytes)
    ensures CString(s + [NUL] + rest) == CString(s)
  {
    var t := s + [NUL] + rest;
    assert t[|s|] == NUL;
    assert forall k :: 0 <= k < |s| ==> t[k] == s[k];
    assert Find(t, NUL) == Find(s, NUL);
  }

  lemma PrependNone<T>(p: Parsed<seq<T>>)
    ensures Prepend([], p) == p
  {
    if p.Done? { assert [] + p.value == p.value; }
  }

  lemma PrependMore<T>(front: seq<T>, x: T, p: Parsed<seq<T>>)
    ensures Prepend(front, Prepend([x], p)) == Prepend(front + [x], p)
  {
    if p.Done? { assert front + ([x] + p.value) == front + [x] + p.value; }
  }

  /** One turn of parse_array's loop. */
  lemma ItemsStep(buf: bytes, off: nat, depth: nat, front: seq<Json>)
    ensures match CJsonSpec.ParseValue(buf, off, depth)
            case Fail => ParseItems(buf, off, depth) == Fail
            case Done(v, next) =>
              var at := SkipBlanks(buf, next);
              Prepend(front, ParseItems(buf, off, depth))
              == if ByteAt(buf, at, COMMA) then Prepend(front + [v], ParseItems(buf, SkipBlanks(buf, at + 1), depth))
                 else Done(front + [v], at)
  {
    hide CJsonSpec.ParseValue, SkipBlanks;
    var p := CJsonSpec.ParseValue(buf, off, depth);
    if p.Done? {
      var at := SkipBlanks(buf, p.next);
      PrependMore(front, p.value, ParseItems(buf, SkipBlanks(buf, at + 1), depth));
    }
  }

  /** What parse_object finds when it stands on a comma, or just before the first key. */
  function MembersAfter(buf: bytes, at: nat, depth: nat): Parsed<seq<Member>> {
    if at + 1 >= |buf| then Fail else ParseMembers(buf, SkipBlanks(buf, at + 1), depth)
  }

  /** A key, its colon and its value. */
  function MemberAt(buf: bytes, off: nat, depth: nat): (r: Parsed<Member>)
    ensures r.Done? ==> off < r.next <= |buf|
  {
    match CJsonSpec.ParseString(buf, off)
    case Fail => Fail
    case Done(key, afterKey) =>
      var colon := SkipBlanks(buf, afterKey);
      if !ByteAt(buf, colon, COLON) then Fail
      else match CJsonSpec.ParseValue(buf, SkipBlanks(buf, colon + 1), depth)
        case Fail => Fail
        case Done(v, next) => Done(Member(key, v), next)
  }

  /** One turn of parse_object's loop. */
  lemma MembersStep(buf: bytes, off: nat, depth: nat, front: seq<Member>)
    ensures match MemberAt(buf, off, depth)
            case Fail => ParseMembers(buf, off, depth) == Fail
            case Done(m, next) =>
              var at := SkipBlanks(buf, next);
              Prepend(front, ParseMembers(buf, off, depth))
              == if ByteAt(buf, at, COMMA) then Prepend(front + [m], MembersAfter(buf, at, depth))
                 else Done(front + [m], at)
  {
    hide CJsonSpec.ParseValue, SkipBlanks, CJsonSpec.ParseString;
    var p := MemberAt(buf, off, depth);
    if p.Done? {
      PrependMore(front, p.value, MembersAfter(buf, SkipBlanks(buf, p.next), depth));
    }
  }

  /** json_parse over cJSON_ParseWithLengthOpts. */
  method ParseText(doc: bytes, maxSize: nat) returns (r: Option<Json>)
    ensures r == ParseDocument(doc, maxSize)
  {
    hide CJsonSpec.ParseValue, SkipBlanks;
    if |doc| > maxSize || |doc| == 0 { return None; }
    var buffer := new ParseBuffer(doc);
    if |doc| > 4 && doc[..3] == [0xef, 0xbb, 0xbf] {
      buffer.offset := 3;
    }
    buffer.SkipWhitespace();
    r := buffer.ParseValue();
    if r.None? { return; }
    var cursor := buffer.offset;
    while cursor < |doc| && IsBlank(doc[cursor])
      invariant buffer.offset <= cursor <= |doc|
      invariant SkipDocBlanks(doc, cursor) == SkipDocBlanks(doc, buffer.offset)
    {
      cursor := cursor + 1;
    }
    if cursor < |doc| && doc[cursor] != NUL { r := None; }
  }
}
