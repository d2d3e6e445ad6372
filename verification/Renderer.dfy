/** The renderer object of src/mua/render.c. */
module Renderer {
  import opened Bytes
  import opened Memory
  import opened RenderSpec
  import opened RenderLaws

  /** What appending `s` in pieces to a capped buffer comes to: all of it, or a refusal that leaves part of it. */
  ghost predicate Appended(was: bytes, s: bytes, now: bytes, ok: bool, max: nat) {
    && (ok <==> |was| + |s| <= max)
    && (if ok then now == was + s else now <= was + s)
  }

  lemma Both(was: bytes, a: bytes, mid: bytes, b: bytes, now: bytes, ok: bool, max: nat)
    requires Appended(was, a, mid, true, max) && Appended(mid, b, now, ok, max)
    ensures Appended(was, a + b, now, ok, max)
  {
    assert was + (a + b) == (was + a) + b;
  }

  lemma FirstRefused(was: bytes, a: bytes, now: bytes, b: bytes, max: nat)
    requires Appended(was, a, now, false, max)
    ensures Appended(was, a + b, now, false, max)
  {
    assert was + (a + b) == (was + a) + b;
  }

  method Append(out: Buf, s: bytes) returns (ok: bool)
    requires out.Valid()
    modifies out
    ensures out.Valid() && Appended(old(out.Contents()), s, out.Contents(), ok, out.max)
  {
    ok := out.Append(s);
  }

  /** A styled span: the sequence that switches on, the text, the sequence that switches off. */
  method EmitStyled(out: Buf, style: Style, text: bytes) returns (ok: bool)
    requires out.Valid()
    modifies out
    ensures out.Valid() && Appended(old(out.Contents()), SpanBytes(Styled(style, text)), out.Contents(), ok, out.max)
  {
    hide Appended;
    ghost var was := out.Contents();
    var a, b := On(style), Off(style);
    ok := Append(out, a);
    if !ok {
      FirstRefused(was, a, out.Contents(), text + b, out.max);
      assert a + (text + b) == a + text + b;
      return;
    }
    ghost var mid := out.Contents();
    ok := Append(out, text);
    ghost var then_ := out.Contents();
    if !ok {
      FirstRefused(mid, text, then_, b, out.max);
      Both(was, a, mid, text + b, then_, false, out.max);
      assert a + (text + b) == a + text + b;
      return;
    }
    Both(was, a, mid, text, then_, true, out.max);
    ok := Append(out, b);
    Both(was, a + text, then_, b, out.Contents(), ok, out.max);
  }

  /** The closing run of emphasis. */
  method FindClose(p: bytes, from: nat, run: nat) returns (close: nat)
    requires from <= |p| && run >= 1
    ensures close == ClosingRun(p, from, run)
  {
    var scan := from;
    close := |p|;
    while scan < |p|
      invariant from <= scan <= |p| && close == |p| && ClosingRun(p, scan, run) == ClosingRun(p, from, run)
    {
      if p[scan] != STAR {
        scan := scan + 1;
        continue;
      }
      var k := scan;
      while k < |p| && p[k] == STAR
        invariant scan <= k <= |p| && RunEnd(p, k, STAR) == RunEnd(p, scan, STAR)
        invariant k == scan ==> p[scan] == STAR && scan < |p|
      {
        k := k + 1;
      }
      if k - scan >= run { return scan; }
      scan := k;
    }
  }

  lemma Slices(p: bytes, i: nat, a: nat, b: nat)
    requires a <= b && i + b <= |p|
    ensures p[i..][a..b] == p[i + a..i + b]
  {
  }

  /** emphasis at `i`, where a star stands: how much it takes. */
  method Emphasis(p: bytes, i: nat, out: Buf) returns (used: nat, ok: bool)
    requires out.Valid() && i < |p| && p[i] == STAR
    modifies out
    ensures out.Valid() && used == First(p[i..]).1
    ensures Appended(old(out.Contents()), SpanBytes(First(p[i..]).0), out.Contents(), ok, out.max)
  {
    hide Appended, ClosingRun;
    var run := if i + 1 < |p| && p[i + 1] == STAR then 2 else 1;
    var close := FindClose(p[i..], run, run);
    if close == |p| - i {
      used := run;
      Slices(p, i, 0, run);
      assert p[i..][..run] == p[i..][0..run];
      ok := Append(out, p[i..i + run]);
      return;
    }
    used := close + run;
    Slices(p, i, run, close);
    ok := EmitStyled(out, if run == 2 then Bold else Italic, p[i + run..i + close]);
  }

  /** A code span at `i`, where a backtick stands. */
  method CodeSpan(p: bytes, i: nat, out: Buf) returns (used: nat, ok: bool)
    requires out.Valid() && i < |p| && p[i] == BACKTICK
    modifies out
    ensures out.Valid() && used == First(p[i..]).1
    ensures Appended(old(out.Contents()), SpanBytes(First(p[i..]).0), out.Contents(), ok, out.max)
  {
    hide Appended, ClosingRun, OpeningRun;
    assert p[i..][1..] == p[i + 1..];
    var j := 1 + Find(p[i + 1..], BACKTICK);
    if i + j < |p| {
      used := j + 1;
      Slices(p, i, 1, j);
      ok := EmitStyled(out, Code, p[i + 1..i + j]);
    } else {
      used := 1;
      ok := Append(out, [p[i]]);
    }
  }

  lemma PlainFirst(p: bytes)
    requires p != []
    ensures p[0] == BACKSLASH && |p| > 1 ==> First(p) == (Plain([p[1]]), 2)
    ensures p[0] != BACKTICK && p[0] != STAR && (p[0] != BACKSLASH || |p| == 1) ==> First(p) == (Plain([p[0]]), 1)
  {
  }

  /** One turn of inline_pass. */
  method InlineTurn(p: bytes, i: nat, out: Buf) returns (used: nat, ok: bool)
    requires out.Valid() && i < |p|
    modifies out
    ensures out.Valid() && used == First(p[i..]).1
    ensures Appended(old(out.Contents()), SpanBytes(First(p[i..]).0), out.Contents(), ok, out.max)
  {
    hide Appended, First, SpanBytes;
    PlainFirst(p[i..]);
    if p[i] == BACKSLASH && i + 1 < |p| {
      used := 2;
      PlainBytes([p[i + 1]]);
      ok := Append(out, [p[i + 1]]);
    } else if p[i] == BACKTICK {
      used, ok := CodeSpan(p, i, out);
    } else if p[i] == STAR {
      used, ok := Emphasis(p, i, out);
    } else {
      used := 1;
      PlainBytes([p[i]]);
      ok := Append(out, [p[i]]);
    }
  }

  /** inline_pass on the bytes from `from` on. */
  method InlinePass(p: bytes, from: nat, out: Buf) returns (ok: bool)
    requires out.Valid() && from <= |p|
    modifies out
    ensures out.Valid()
    ensures Appended(old(out.Contents()), SpansBytes(Inline(p[from..])), out.Contents(), ok, out.max)
  {
    hide Appended, First, SpanBytes, SpansBytes;
    ghost var was := out.Contents();
    ghost var done: bytes := [];
    ghost var whole := SpansBytes(Inline(p[from..]));
    var i := from;
    ok := true;
    NoneAppended(was, out.max);
    FitsNothing(out);
    while i < |p|
      invariant from <= i <= |p| && out.Valid() && ok
      invariant Appended(was, done, out.Contents(), true, out.max)
      invariant done + SpansBytes(Inline(p[i..])) == whole
    {
      ghost var mid := out.Contents();
      ghost var sp := First(p[i..]).0;
      var used;
      used, ok := InlineTurn(p, i, out);
      assert p[i..][used..] == p[i + used..];
      i := i + used;
      ghost var more := Inline(p[i..]);
      OneSpan(sp, more);
      assert whole == (done + SpanBytes(sp)) + SpansBytes(more);
      Both(was, done, mid, SpanBytes(sp), out.Contents(), ok, out.max);
      if !ok {
        FirstRefused(was, done + SpanBytes(sp), out.Contents(), SpansBytes(more), out.max);
        return;
      }
      done := done + SpanBytes(sp);
    }
    InlineEnd(p[i..]);
    assert done + [] == done;
  }

  lemma InlineEnd(p: bytes)
    requires p == []
    ensures SpansBytes(Inline(p)) == []
  {
  }

  lemma NoneAppended(was: bytes, max: nat)
    ensures |was| <= max ==> Appended(was, [], was, true, max)
  {
  }

  lemma FitsNothing(out: Buf)
    requires out.Valid()
    ensures |out.Contents()| <= out.max
  {
  }

  /** is_fence. */
  method LineIsFence(p: bytes) returns (fence: bool)
    ensures fence == IsFence(p)
  {
    var i := 0;
    while i < |p| && p[i] == SPACE
      invariant i <= |p| && RunEnd(p, i, SPACE) == RunEnd(p, 0, SPACE)
    {
      i := i + 1;
    }
    if |p| - i < 3 { return false; }
    fence := (p[i] == BACKTICK && p[i + 1] == BACKTICK && p[i + 2] == BACKTICK)
             || (p[i] == TILDE && p[i + 1] == TILDE && p[i + 2] == TILDE);
  }

  /** block_prefix. */
  method PrefixLength(p: bytes) returns (n: nat)
    ensures n == BlockPrefix(p)
  {
    var i := 0;
    while i < |p| && (p[i] == SPACE || p[i] == TAB)
      invariant i <= |p| && Blanks(p, i) == Blanks(p, 0)
    {
      i := i + 1;
    }
    if i >= |p| { return 0; }
    if p[i] == 62 { return if i + 1 < |p| && p[i + 1] == SPACE then i + 2 else i + 1; }
    if (p[i] == 45 || p[i] == STAR || p[i] == 43) && i + 1 < |p| && p[i + 1] == SPACE { return i + 2; }
    var j := i;
    while j < |p| && IsDigit(p[j])
      invariant i <= j <= |p| && Digits(p, j) == Digits(p, i)
    {
      j := j + 1;
    }
    if j > i && j + 1 < |p| && (p[j] == 46 || p[j] == 41) && p[j + 1] == SPACE { return j + 2; }
    n := 0;
  }

  /** The start of normal_line: where a heading's text begins. */
  method HeadingStart(p: bytes) returns (start: Option<nat>)
    ensures start == HeadingText(p)
  {
    var i := 0;
    while i < |p| && i < 3 && p[i] == SPACE
      invariant i <= |p| && i <= 3 && RunEnd(p, i, SPACE) == RunEnd(p, 0, SPACE)
    {
      i := i + 1;
    }
    var hashes := 0;
    while i + hashes < |p| && hashes < 6 && p[i + hashes] == HASH
      invariant i + hashes <= |p| && hashes <= 6 && RunEnd(p, i + hashes, HASH) == RunEnd(p, i, HASH)
    {
      hashes := hashes + 1;
    }
    if hashes == 0 || (i + hashes < |p| && p[i + hashes] != SPACE) { return None; }
    start := Some(if i + hashes < |p| then i + hashes + 1 else i + hashes);
  }

  /** normal_line. */
  method EmitNormal(p: bytes, out: Buf) returns (ok: bool)
    requires out.Valid()
    modifies out
    ensures out.Valid() && Appended(old(out.Contents()), SpansBytes(NormalLine(p)), out.Contents(), ok, out.max)
  {
    hide Appended, Inline, SpanBytes, SpansBytes, BlockPrefix, HeadingText;
    ghost var was := out.Contents();
    NoSpans();
    var start := HeadingStart(p);
    if start.Some? {
      ok := EmitStyled(out, Bold, p[start.value..]);
      OneSpan(Styled(Bold, p[start.value..]), []);
      assert [Styled(Bold, p[start.value..])] + [] == NormalLine(p);
      assert SpanBytes(Styled(Bold, p[start.value..])) + [] == SpanBytes(Styled(Bold, p[start.value..]));
      return;
    }
    var prefix := PrefixLength(p);
    ghost var more := Inline(p[prefix..]);
    if prefix == 0 {
      assert [] + more == more;
      ok := InlinePass(p, prefix, out);
      return;
    }
    OneSpan(Plain(p[..prefix]), more);
    PlainBytes(p[..prefix]);
    ok := Append(out, p[..prefix]);
    if !ok {
      FirstRefused(was, p[..prefix], out.Contents(), SpansBytes(more), out.max);
      return;
    }
    ghost var mid := out.Contents();
    ok := InlinePass(p, prefix, out);
    Both(was, p[..prefix], mid, SpansBytes(more), out.Contents(), ok, out.max);
  }

  lemma PlainBytes(t: bytes)
    ensures SpanBytes(Plain(t)) == t
  {
  }

  class MarkdownRenderer {
    const line: Buf
    var inFence: bool
    var lineOverflowed: bool
    var endedNewline: bool

    ghost function Abs(out: bytes): Render
      requires line.Valid()
      reads this, line
    {
      Render(line.Contents(), inFence, lineOverflowed, endedNewline, out)
    }

    ghost predicate Valid()
      reads this, line
    {
      line.Valid() && line.max == LINE_MAX && (lineOverflowed ==> line.Contents() == [])
    }

    /** render_init. */
    constructor ()
      ensures Valid() && Abs([]) == INIT && fresh(line)
    {
      line := new Buf(LINE_MAX);
      inFence, lineOverflowed, endedNewline := false, false, true;
    }

    /** style_line. */
    method EmitLine(out: Buf) returns (ok: bool)
      requires Valid() && out.Valid() && out != line
      modifies this`inFence, out
      ensures Valid() && out.Valid()
      ensures Appended(old(out.Contents()), SpansBytes(StyleLine(line.Contents(), old(inFence))), out.Contents(), ok,
          out.max)
      ensures inFence == if IsFence(line.Contents()) then !old(inFence) else old(inFence)
    {
      hide Appended, SpansBytes, SpanBytes, NormalLine, IsFence;
      var p := line.Contents();
      NoSpans();
      var fence := LineIsFence(p);
      if fence || inFence {
        var style := if fence then Dim else Code;
        OneSpan(Styled(style, p), []);
        assert [Styled(style, p)] + [] == StyleLine(p, inFence);
        assert SpanBytes(Styled(style, p)) + [] == SpanBytes(Styled(style, p));
        if fence { inFence := !inFence; }
        ok := EmitStyled(out, style, p);
        return;
      }
      ok := EmitNormal(p, out);
    }

    /** A line feed: the line is styled, unless it has been passed on raw. */
    method EndLine(out: Buf) returns (ok: bool)
      requires Valid() && out.Valid() && out != line
      modifies this, line, out
      ensures Valid() && out.Valid()
      ensures ok <==> |Step(old(Abs(out.Contents())), LF).out| <= out.max
      ensures ok ==> Abs(out.Contents()) == Step(old(Abs(out.Contents())), LF)
      ensures !ok ==> out.Contents() <= Step(old(Abs(out.Contents())), LF).out
    {
      hide StyleLine, SpansBytes, IsFence;
      if !lineOverflowed {
        ok := EmitLine(out);
        if !ok { return; }
      }
      line.Reset();
      lineOverflowed := false;
      ok := Append(out, [LF]);
      if ok { endedNewline := true; }
    }

    /** One byte of render_feed; a line that grows too long is passed on raw. */
    method FeedByte(c: byte, out: Buf) returns (ok: bool)
      requires Valid() && out.Valid() && out != line
      modifies this, line, out
      ensures Valid() && out.Valid()
      ensures ok <==> |Step(old(Abs(out.Contents())), c).out| <= out.max
      ensures ok ==> Abs(out.Contents()) == Step(old(Abs(out.Contents())), c)
      ensures !ok ==> out.Contents() <= Step(old(Abs(out.Contents())), c).out
    {
      hide StyleLine, SpansBytes, IsFence, Emitted;
      if c == LF {
        ok := EndLine(out);
        return;
      }
      if lineOverflowed {
        ok := Append(out, [c]);
        if ok { endedNewline := false; }
        return;
      }
      ok := line.Append([c]);
      if !ok {
        ok := Append(out, line.Contents());
        if !ok { return; }
        ok := Append(out, [c]);
        if !ok { return; }
        line.Reset();
        lineOverflowed, endedNewline := true, false;
      }
    }

    /** render_feed: the output buffer takes the whole rendering, or refuses and holds a part of it. */
    method Feed(input: bytes, out: Buf) returns (ok: bool)
      requires Valid() && out.Valid() && out != line
      modifies this, line, out
      ensures Valid() && out.Valid()
      ensures ok <==> |Run(old(Abs(out.Contents())), input).out| <= out.max
      ensures ok ==> Abs(out.Contents()) == Run(old(Abs(out.Contents())), input)
      ensures !ok ==> out.Contents() <= Run(old(Abs(out.Contents())), input).out
    {
      hide Step;
      ghost var start := Abs(out.Contents());
      var i := 0;
      ok := true;
      assert input[..0] == [];
      while i < |input|
        invariant i <= |input| && Valid() && out.Valid() && ok
        invariant Abs(out.Contents()) == Run(start, input[..i])
      {
        ghost var done := input[..i + 1];
        assert done[..|done| - 1] == input[..i];
        ok := FeedByte(input[i], out);
        if !ok {
          OutputGrows(start, input, i + 1);
          return;
        }
        i := i + 1;
      }
      assert input[..i] == input;
      FitsNothing(out);
    }

    /** render_flush: the pending line is styled, and the renderer is back at the start of a line. */
    method Finish(out: Buf) returns (ok: bool)
      requires Valid() && out.Valid() && out != line
      modifies this, line, out
      ensures Valid() && out.Valid()
      ensures ok <==> |Flush(old(Abs(out.Contents()))).out| <= out.max
      ensures ok ==> Abs(out.Contents()) == Flush(old(Abs(out.Contents())))
      ensures !ok ==> out.Contents() <= Flush(old(Abs(out.Contents()))).out
    {
      hide StyleLine, SpansBytes, IsFence;
      FitsNothing(out);
      if !lineOverflowed && line.size > 0 {
        ok := EmitLine(out);
        if !ok { return; }
        endedNewline := false;
      }
      line.Reset();
      lineOverflowed, inFence := false, false;
      ok := true;
    }
  }

  /** Output is never taken back. */
  lemma {:induction false} OutputGrows(r: Render, s: bytes, n: nat)
    requires n <= |s|
    ensures Run(r, s[..n]).out <= Run(r, s).out
    decreases |s|
  {
    if n == |s| {
      assert s[..n] == s;
    } else {
      var front := s[..|s| - 1];
      assert front[..n] == s[..n];
      OutputGrows(r, front, n);
      OneGrows(Run(r, front), s[|s| - 1]);
    }
  }

  lemma OneGrows(r: Render, b: byte)
    ensures r.out <= Step(r, b).out
  {
    hide StyleLine, SpansBytes, IsFence;
  }
}
