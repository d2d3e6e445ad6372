/** The printer of src/cjson/cJSON.c: text written into a buffer that grows, measured by its terminating NUL. */
module CJsonPrint {
  import opened Bytes
  import opened CJsonSpec
  import opened CJsonLaws
  import opened CJsonText

  /**
   printbuffer.  Writers leave their text, NUL-terminated, at `offset`; update_offset then moves past it.
   */
  class PrintBuffer {
    var buffer: array<byte>
    var offset: nat
    var depth: nat
    const format: bool

    constructor (size: nat, format: bool)
      requires size > 0
      ensures fresh(buffer) && buffer.Length == size && offset == 0 && depth == 0 && this.format == format
    {
      buffer := new byte[size];
      offset, depth := 0, 0;
      this.format := format;
    }

    /** Everything before `offset` is `t`, and there is room for a NUL. */
    ghost predicate Ready(t: bytes)
      reads this, buffer
    {
      offset == |t| < buffer.Length <= INT_MAX && buffer[..offset] == t
    }

    /** The buffer holds `t` and a NUL, and what is not yet counted by `offset` contains no other NUL. */
    ghost predicate Holds(t: bytes)
      reads this, buffer
    {
      && offset <= |t| < buffer.Length <= INT_MAX
      && buffer[..|t|] == t && buffer[|t|] == NUL
      && NUL !in t[offset..]
    }

    /** ensure: grows to twice the need, keeping the text up to and including `offset`. */
    method Ensure(needed: nat) returns (ok: bool)
      modifies this`buffer
      ensures buffer == old(buffer) || fresh(buffer)
      ensures ok ==> old(offset < buffer.Length)
      ensures ok ==> offset + needed + 1 <= buffer.Length && buffer[..offset] == old(buffer[..offset])
      ensures old(offset < buffer.Length) && offset + needed + 1 <= INT_MAX ==> ok
      ensures !ok ==> buffer == old(buffer)
      ensures old(buffer.Length) <= INT_MAX ==> buffer.Length <= INT_MAX
    {
      if offset >= buffer.Length { return false; }
      if needed > INT_MAX { return false; }
      var total := needed + offset + 1;
      if total <= buffer.Length { return true; }
      if total > INT_MAX { return false; }
      var newSize := if total > INT_MAX / 2 then INT_MAX else total * 2;
      var newBuffer := new byte[newSize];
      forall i | 0 <= i < offset + 1 {
        newBuffer[i] := buffer[i];
      }
      assert newBuffer[..offset] == buffer[..offset];
      buffer := newBuffer;
      return true;
    }

    /** update_offset: strlen from `offset`. */
    method UpdateOffset(ghost t: bytes)
      requires Holds(t)
      modifies this`offset
      ensures Ready(t)
    {
      ghost var before := offset;
      assert buffer[..|t|] == t;
      while buffer[offset] != NUL
        invariant before <= offset <= |t|
        decreases |t| - offset
      {
        offset := offset + 1;
      }
      InTail(t, before, offset);
    }

    /** Copies a text and its NUL to `offset`, as strcpy does. */
    method Copy(t: bytes, ghost base: bytes)
      requires Ready(base) && offset + |t| < buffer.Length && NUL !in t
      modifies buffer
      ensures Holds(base + t)
    {
      forall i | 0 <= i < |t| {
        buffer[offset + i] := t[i];
      }
      buffer[offset + |t|] := NUL;
      assert buffer[..offset + |t|] == base + t;
      assert (base + t)[offset..] == t;
    }

    /** The branches of print_value for constants: room is asked for, then the text is copied. */
    method PrintText(t: bytes, ghost base: bytes) returns (ok: bool)
      requires Ready(base) && NUL !in t
      modifies this`buffer, buffer
      ensures buffer == old(buffer) || fresh(buffer)
      ensures ok ==> Holds(base + t)
      ensures |base| + |t| + 2 <= INT_MAX <==> ok
    {
      ok := Ensure(|t| + 1);
      if ok {
        Copy(t, base);
      }
    }

    /** print_number: moves the offset itself. */
    method PrintNumber(t: bytes, ghost base: bytes) returns (ok: bool)
      requires Ready(base) && NUL !in t
      modifies this`buffer, this`offset, buffer
      ensures buffer == old(buffer) || fresh(buffer)
      ensures ok ==> Holds(base + t)
      ensures |base| + |t| + 2 <= INT_MAX <==> ok
    {
      ok := PrintText(t, base);
      if ok {
        offset := offset + |t|;
      }
    }

    /** Reserves `needed` bytes, writes `t` there and moves past it. */
    method Append(t: bytes, needed: nat, ghost base: bytes) returns (ok: bool)
      requires Ready(base) && |t| <= needed
      modifies this`buffer, this`offset, buffer
      ensures buffer == old(buffer) || fresh(buffer)
      ensures ok ==> Ready(base + t)
      ensures |base| + needed + 1 <= INT_MAX <==> ok
    {
      ok := Ensure(needed);
      if ok {
        forall i | 0 <= i < |t| {
          buffer[offset + i] := t[i];
        }
        offset := offset + |t|;
        assert buffer[..offset] == base + t;
      }
    }

    /** The first pass of print_string_ptr. */
    method CountExtra(s: bytes) returns (extra: nat)
      ensures extra == Extra(s)
    {
      extra := 0;
      var i := 0;
      while i < |s|
        invariant i <= |s| && extra == Extra(s[..i])
      {
        assert s[..i + 1][..i] == s[..i];
        if s[i] in [34, 92, 8, 12, 10, 13, 9] {
          extra := extra + 1;
        } else if s[i] < 32 {
          extra := extra + 5;
        }
        i := i + 1;
      }
      assert s[..i] == s;
    }

    /** One turn of the second pass: a plain byte, a two-byte escape, or a u00xx whose sprintf also writes a NUL. */
    method WriteByte(b: byte, at: nat) returns (next: nat)
      requires at + |EscapeByte(b)| < buffer.Length
      modifies buffer
      ensures next == at + |EscapeByte(b)| && buffer[..next] == old(buffer[..at]) + EscapeByte(b)
    {
      if b > 31 && b != QUOTE && b != BACKSLASH {
        buffer[at] := b;
        next := at + 1;
      } else if EscapeLetter(b).Some? {
        buffer[at], buffer[at + 1] := BACKSLASH, EscapeLetter(b).value;
        next := at + 2;
      } else {
        WriteHexEscape(b, at);
        next := at + 6;
        return;
      }
      assert buffer[at..next] == EscapeByte(b);
      assert buffer[..next] == buffer[..at] + buffer[at..next];
    }

    method WriteHexEscape(b: byte, at: nat)
      requires b < 32 && EscapeLetter(b).None? && at + 6 < buffer.Length
      modifies buffer
      ensures |EscapeByte(b)| == 6 && buffer[..at + 6] == old(buffer[..at]) + EscapeByte(b)
    {
      hide EscapeLetter, HexDigit;
      buffer[at] := BACKSLASH;
      buffer[at + 1], buffer[at + 2], buffer[at + 3] := 117, 48, 48;
      buffer[at + 4], buffer[at + 5], buffer[at + 6] := HexDigit(b / 16), HexDigit(b % 16), NUL;
      assert buffer[at..at + 6] == EscapeByte(b);
      assert buffer[..at + 6] == buffer[..at] + buffer[at..at + 6];
    }

    /** The second pass of print_string_ptr, which counts on the first pass having counted right. */
    method WriteEscaped(s: bytes, at: nat) returns (next: nat)
      requires at + |Escape(s)| < buffer.Length
      modifies buffer
      ensures next == at + |Escape(s)| && buffer[..next] == old(buffer[..at]) + Escape(s)
    {
      hide EscapeByte, Escape;
      ghost var front := buffer[..at];
      next := at;
      var i := 0;
      EscapeNothing();
      assert s[..0] == [] && front + [] == front;
      while i < |s|
        invariant i <= |s| && next == at + |Escape(s[..i])| < buffer.Length
        invariant buffer[..next] == front + Escape(s[..i])
      {
        EscapeNext(s, i);
        next := WriteByte(s[i], next);
        i := i + 1;
      }
      assert s[..i] == s;
    }

    /** print_string_ptr. */
    method PrintStringPtr(s: bytes, ghost base: bytes) returns (ok: bool)
      requires Ready(base) && IsCString(s)
      modifies this`buffer, buffer
      ensures buffer == old(buffer) || fresh(buffer)
      ensures ok ==> Holds(base + PrintString(s))
      ensures |base| + |PrintString(s)| + 2 <= INT_MAX <==> ok
    {
      hide Escape, Extra, IsCString;
      var extra := CountExtra(s);
      var length := |s| + extra;
      EscapedSize(s);
      ok := Ensure(length + 3);
      if !ok { return; }
      EscapedNoNul(s);
      if extra == 0 {
        NothingToEscape(s);
        Copy([QUOTE] + (s + [QUOTE]), base);
        return;
      }
      WriteQuoted(s, base);
    }

    /** The escaping branch of print_string_ptr. */
    method WriteQuoted(s: bytes, ghost base: bytes)
      requires Ready(base) && offset + |Escape(s)| + 2 < buffer.Length && NUL !in PrintString(s)
      modifies buffer
      ensures Holds(base + PrintString(s))
    {
      hide Escape;
      buffer[offset] := QUOTE;
      ghost var open := base + [QUOTE];
      assert buffer[..offset + 1] == open;
      var next := WriteEscaped(s, offset + 1);
      buffer[next], buffer[next + 1] := QUOTE, NUL;
      assert buffer[..next] == open + Escape(s);
      assert buffer[..next + 1] == base + PrintString(s);
      assert (base + PrintString(s))[offset..] == PrintString(s);
    }

    /** print_value. */
    method PrintValue(v: Json, ghost base: bytes) returns (ok: bool)
      requires Ready(base) && Storable(v)
      modifies this, buffer
      ensures buffer == old(buffer) || fresh(buffer)
      ensures ok ==> depth == old(depth) && Holds(base + Print(v, format, depth))
      ensures |base| + |Print(v, format, old(depth))| + 2 <= INT_MAX <==> ok
      decreases v, 1
    {
      hide PrintItems, PrintMembers, PrintString, PrintInt, StorableItems, StorableMembers, IsCString;
      match v
      case Null => ok := PrintText(TEXT_NULL, base);
      case False => ok := PrintText(TEXT_FALSE, base);
      case True => ok := PrintText(TEXT_TRUE, base);
      case Integer(i) =>
        PrintedNoNul(v, format, depth);
        ok := PrintNumber(PrintInt(i), base);
      case Real(text) =>
        PrintedNoNul(v, format, depth);
        ok := PrintNumber(text, base);
      case String(s) => ok := PrintStringPtr(s, base);
      case Array(items) => ok := PrintArray(v, items, base);
      case Object(members) => ok := PrintObject(v, members, base);
    }

    /** The end of print_array and of print_object: room is asked for, then the closing text is copied. */
    method Close(t: bytes, needed: nat, ghost base: bytes) returns (ok: bool)
      requires Ready(base) && |t| <= needed && NUL !in t
      modifies this`buffer, buffer
      ensures buffer == old(buffer) || fresh(buffer)
      ensures ok ==> Holds(base + t)
      ensures |base| + needed + 1 <= INT_MAX <==> ok
    {
      ok := Ensure(needed);
      if ok {
        Copy(t, base);
      }
    }

    /** One turn of print_array's loop; `goal` is the text that will stand in the end. */
    method PrintItem(v: Json, last: bool, ghost rest: seq<Json>, ghost base: bytes, ghost goal: bytes)
      returns (ghost text: bytes, ok: bool)
      requires rest != [] && rest[0] == v && last == (|rest| == 1) && StorableItems(rest)
      requires Ready(base) && goal == base + (PrintItems(rest, format, depth) + [CLOSE_ARRAY])
      modifies this, buffer
      ensures buffer == old(buffer) || fresh(buffer)
      ensures ok ==> depth == old(depth) && StorableItems(rest[1..])
      ensures ok ==> Ready(text) && goal == text + (PrintItems(rest[1..], format, depth) + [CLOSE_ARRAY])
      ensures |goal| + 2 <= INT_MAX ==> ok
      decreases v, 2
    {
      hide Print, PrintItems, Storable, StorableItems;
      ItemsText(rest, format, depth);
      text := base;
      ghost var printed := Print(v, format, depth);
      Regroup(text, printed, Separator(format), PrintItems(rest[1..], format, depth), [CLOSE_ARRAY]);
      ok := PrintValue(v, text);
      if !ok { return; }
      text := text + printed;
      UpdateOffset(text);
      if !last {
        ok := Append(Separator(format), (if format then 2 else 1) + 1, text);
        if !ok { return; }
        text := text + Separator(format);
      } else {
        NoItems(rest[1..], format, depth);
      }
    }

    /** The loop of print_array. */
    method PrintEachItem(items: seq<Json>, ghost base: bytes, ghost goal: bytes) returns (ghost text: bytes, ok: bool)
      requires Ready(base) && StorableItems(items)
      requires goal == base + (PrintItems(items, format, depth) + [CLOSE_ARRAY])
      modifies this, buffer
      ensures buffer == old(buffer) || fresh(buffer)
      ensures ok ==> depth == old(depth) && Ready(text) && goal == text + [CLOSE_ARRAY]
      ensures |goal| + 2 <= INT_MAX ==> ok
      decreases items, 3
    {
      hide PrintItems, StorableItems;
      text, ok := base, true;
      var i := 0;
      assert items[0..] == items;
      while i < |items|
        invariant i <= |items| && depth == old(depth) && StorableItems(items[i..])
        invariant buffer == old(buffer) || fresh(buffer)
        invariant Ready(text) && goal == text + (PrintItems(items[i..], format, depth) + [CLOSE_ARRAY])
        invariant ok
      {
        assert items[i..][1..] == items[i + 1..];
        text, ok := PrintItem(items[i], i + 1 == |items|, items[i..], text, goal);
        if !ok { return; }
        i := i + 1;
      }
      NoItems(items[i..], format, depth);
      assert goal == text + [CLOSE_ARRAY];
    }

    /** print_array. */
    method PrintArray(ghost v: Json, items: seq<Json>, ghost base: bytes) returns (ok: bool)
      requires v == Array(items) && Ready(base) && Storable(v)
      modifies this, buffer
      ensures buffer == old(buffer) || fresh(buffer)
      ensures ok ==> depth == old(depth) && Holds(base + Print(v, format, depth))
      ensures |base| + |Print(v, format, old(depth))| + 2 <= INT_MAX <==> ok
      decreases v, 0
    {
      hide Print, PrintItems, Storable, StorableItems;
      ghost var goal := base + Print(v, format, depth);
      ArrayText(v, format, depth);
      ok := Append([OPEN_ARRAY], 1, base);
      if !ok { return; }
      ghost var text := base + [OPEN_ARRAY];
      assert goal == text + (PrintItems(items, format, depth + 1) + [CLOSE_ARRAY]) by {
        Grouping(base, [OPEN_ARRAY], PrintItems(items, format, depth + 1) + [CLOSE_ARRAY]);
      }
      depth := depth + 1;
      text, ok := PrintEachItem(items, text, goal);
      if !ok { return; }
      ok := Close([CLOSE_ARRAY], 2, text);
      if !ok { return; }
      depth := depth - 1;
    }

    /** A member's indentation, key and colon. */
    method PrintKey(key: bytes, ghost base: bytes) returns (ok: bool)
      requires Ready(base) && IsCString(key)
      modifies this`buffer, this`offset, buffer
      ensures buffer == old(buffer) || fresh(buffer)
      ensures ok ==> Ready(base + KeyText(key, format, depth))
      ensures |base| + |KeyText(key, format, depth)| + 2 <= INT_MAX ==> ok
    {
      hide PrintString, IsCString;
      ghost var text := base;
      if format {
        ok := Append(Tabs(depth), depth, text);
        if !ok { return; }
        text := text + Tabs(depth);
      }
      ok := PrintStringPtr(key, text);
      if !ok { return; }
      text := text + PrintString(key);
      UpdateOffset(text);
      ok := Append(Colon(format), if format then 2 else 1, text);
      assert text + Colon(format) == base + KeyText(key, format, depth);
    }

    /** One turn of print_object's loop; `goal` is the text that will stand in the end. */
    method PrintMember(m: Member, last: bool, ghost rest: seq<Member>, ghost close: bytes, ghost base: bytes,
        ghost goal: bytes)
      returns (ghost text: bytes, ok: bool)
      requires rest != [] && rest[0] == m && last == (|rest| == 1) && StorableMembers(rest)
      requires Ready(base) && goal == base + (PrintMembers(rest, format, depth) + close) && |close| >= 1
      modifies this, buffer
      ensures buffer == old(buffer) || fresh(buffer)
      ensures ok ==> depth == old(depth) && StorableMembers(rest[1..])
      ensures ok ==> Ready(text) && goal == text + (PrintMembers(rest[1..], format, depth) + close)
      ensures |goal| + 2 <= INT_MAX ==> ok
      decreases m, 2
    {
      hide Print, PrintMembers, Storable, StorableMembers, KeyText;
      MembersText(rest, format, depth);
      ghost var key, value, end := KeyText(m.key, format, depth), Print(m.value, format, depth),
          MemberEnd(last, format);
      MemberParts(base, key, value, end, PrintMembers(rest[1..], format, depth), close);
      text := base;
      ok := PrintKey(m.key, text);
      if !ok { return; }
      text := text + key;
      ok := PrintValue(m.value, text);
      if !ok { return; }
      text := text + value;
      UpdateOffset(text);
      var length := (if format then 1 else 0) + (if last then 0 else 1);
      ok := Append(MemberEnd(last, format), length + 1, text);
      text := text + end;
    }

    /** The loop of print_object. */
    method PrintEachMember(members: seq<Member>, ghost close: bytes, ghost base: bytes, ghost goal: bytes)
      returns (ghost text: bytes, ok: bool)
      requires Ready(base) && StorableMembers(members) && |close| >= 1
      requires goal == base + (PrintMembers(members, format, depth) + close)
      modifies this, buffer
      ensures buffer == old(buffer) || fresh(buffer)
      ensures ok ==> depth == old(depth) && Ready(text) && goal == text + close
      ensures |goal| + 2 <= INT_MAX ==> ok
      decreases members, 3
    {
      hide PrintMembers, StorableMembers;
      text, ok := base, true;
      var i := 0;
      assert members[0..] == members;
      while i < |members|
        invariant i <= |members| && depth == old(depth) && StorableMembers(members[i..])
        invariant buffer == old(buffer) || fresh(buffer)
        invariant Ready(text) && goal == text + (PrintMembers(members[i..], format, depth) + close)
        invariant ok
      {
        assert members[i..][1..] == members[i + 1..];
        text, ok := PrintMember(members[i], i + 1 == |members|, members[i..], close, text, goal);
        if !ok { return; }
        i := i + 1;
      }
      NoMembers(members[i..], format, depth);
      assert goal == text + close;
    }

    /** print_object. */
    method PrintObject(ghost v: Json, members: seq<Member>, ghost base: bytes) returns (ok: bool)
      requires v == Object(members) && Ready(base) && Storable(v)
      modifies this, buffer
      ensures buffer == old(buffer) || fresh(buffer)
      ensures ok ==> depth == old(depth) && Holds(base + Print(v, format, depth))
      ensures |base| + |Print(v, format, old(depth))| + 2 <= INT_MAX <==> ok
      decreases v, 0
    {
      hide Print, PrintMembers, Storable, StorableMembers;
      ghost var goal := base + Print(v, format, depth);
      ObjectText(v, format, depth);
      CloseText(format, depth);
      hide Indent;
      ok := Append(Opening(format), (if format then 2 else 1) + 1, base);
      if !ok { return; }
      ghost var text := base + Opening(format);
      ghost var close := Indent(format, depth) + [CLOSE_OBJECT];
      assert goal == text + (PrintMembers(members, format, depth + 1) + close) by {
        Grouping(base, Opening(format), PrintMembers(members, format, depth + 1) + close);
      }
      ok := PrintObjectBody(members, close, text, goal);
    }

    /** The members, the indentation and the closing brace. */
    method PrintObjectBody(members: seq<Member>, ghost close: bytes, ghost base: bytes, ghost goal: bytes)
        returns (ok: bool)
      requires Ready(base) && StorableMembers(members)
      requires close == Indent(format, depth) + [CLOSE_OBJECT]
          && goal == base + (PrintMembers(members, format, depth + 1) + close)
      modifies this, buffer
      ensures buffer == old(buffer) || fresh(buffer)
      ensures ok ==> depth == old(depth) && Holds(goal)
      ensures |goal| + 2 <= INT_MAX <==> ok
      decreases members, 4
    {
      hide PrintMembers, StorableMembers;
      CloseText(format, depth);
      hide Indent;
      ghost var text;
      depth := depth + 1;
      text, ok := PrintEachMember(members, close, base, goal);
      if !ok { return; }
      ok := Close(Indent(format, depth - 1) + [CLOSE_OBJECT], if format then depth + 1 else 2, text);
      if !ok { return; }
      depth := depth - 1;
    }
  }

  lemma InTail(t: bytes, from: nat, at: nat)
    requires from <= at <= |t|
    ensures at == |t| || t[at] in t[from..]
  {
    if at < |t| { assert t[from..][at - from] == t[at]; }
  }

  lemma EscapeNothing()
    ensures Escape([]) == []
  {
  }

  lemma EscapeNext(s: bytes, i: nat)
    requires i < |s|
    ensures Escape(s[..i + 1]) == Escape(s[..i]) + EscapeByte(s[i])
    ensures |Escape(s[..i + 1])| <= |Escape(s)|
  {
    hide EscapeByte, Escape;
    EscapeSnoc(s[..i], s[i]);
    assert s[..i + 1] == s[..i] + [s[i]];
    EscapedPrefix(s, i + 1);
  }

  lemma {:induction false} EscapedPrefix(s: bytes, i: nat)
    requires i <= |s|
    ensures |Escape(s[..i])| <= |Escape(s)|
    decreases |s|
  {
    if i == |s| {
      assert s[..i] == s;
    } else {
      var front := s[..|s| - 1];
      EscapedPrefix(front, i);
      EscapeSnoc(front, s[|s| - 1]);
      assert s == front + [s[|s| - 1]] && front[..i] == s[..i];
    }
  }

  lemma {:induction false} NothingToEscape(s: bytes)
    requires Extra(s) == 0
    ensures Escape(s) == s
    decreases |s|
  {
    if s != [] {
      var front := s[..|s| - 1];
      NothingToEscape(front);
      EscapeSnoc(front, s[|s| - 1]);
      assert s == front + [s[|s| - 1]];
    }
  }

  lemma EscapedNoNul(s: bytes)
    ensures NUL !in PrintString(s)
  {
    hide Escape;
    EscapedBytes(s);
  }

  lemma PrintedNoNul(v: Json, format: bool, depth: nat)
    requires Storable(v)
    ensures NUL !in Print(v, format, depth)
  {
    hide Print, Storable;
    PrintedBytes(v, format, depth);
  }

  lemma Regroup(text: bytes, a: bytes, b: bytes, c: bytes, d: bytes)
    ensures text + (a + (b + c) + d) == text + a + b + (c + d)
    ensures text + (a + d) == text + a + d
  {
  }

  lemma MemberParts(base: bytes, key: bytes, value: bytes, end: bytes, rest: bytes, close: bytes)
    ensures base + (key + (value + (end + rest)) + close) == base + key + value + end + (rest + close)
  {
  }

  lemma Grouping(a: bytes, b: bytes, c: bytes)
    ensures a + (b + c) == a + b + c
  {
  }

  lemma CloseText(format: bool, depth: nat)
    ensures NUL !in Indent(format, depth) + [CLOSE_OBJECT]
    ensures |Indent(format, depth)| == if format then depth else 0
  {
  }

  lemma NoItems(items: seq<Json>, format: bool, depth: nat)
    requires items == []
    ensures PrintItems(items, format, depth) == []
  {
  }

  lemma NoMembers(members: seq<Member>, format: bool, depth: nat)
    requires members == []
    ensures PrintMembers(members, format, depth) == []
  {
  }

  /** print: a first buffer of 256 bytes, then a copy cut to the text and its NUL. */
  method PrintJson(v: Json, format: bool) returns (r: Option<bytes>)
    requires Storable(v)
    ensures r.Some? ==> r.value == Print(v, format, 0)
    ensures |Print(v, format, 0)| + 2 <= INT_MAX <==> r.Some?
  {
    hide Print, Storable;
    var p := new PrintBuffer(256, format);
    assert p.Ready([]);
    var ok := p.PrintValue(v, []);
    ghost var text := Print(v, format, 0);
    assert [] + text == text;
    if !ok { return None; }
    p.UpdateOffset(text);
    PrintedNoNul(v, format, 0);
    var printed := new byte[p.offset + 1];
    forall i | 0 <= i < p.offset {
      printed[i] := p.buffer[i];
    }
    printed[p.offset] := NUL;
    assert printed[..p.offset] == text;
    r := Some(printed[..p.offset]);
  }
}
