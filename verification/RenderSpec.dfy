/**
 The streaming markdown renderer of src/mua/render.c: how a line is styled, and what a stream of bytes comes out as.
 */
module RenderSpec {
  import opened Bytes

  /** kRenderLineMax. */
  const LINE_MAX := 1048576

  const ESC: byte := 27
  const BACKTICK: byte := 96
  const TILDE: byte := 126
  const STAR: byte := 42
  const HASH: byte := 35
  const BACKSLASH: byte := 92
  const TAB: byte := 9

  datatype Style = Bold | Italic | Code | Dim

  /** The SGR sequences that start and end a style; bold and dim end alike. */
  function On(s: Style): bytes {
    match s
    case Bold => [ESC, 91, 49, 109]
    case Italic => [ESC, 91, 51, 109]
    case Code => [ESC, 91, 51, 54, 109]
    case Dim => [ESC, 91, 50, 109]
  }

  function Off(s: Style): bytes {
    match s
    case Bold => [ESC, 91, 50, 50, 109]
    case Italic => [ESC, 91, 50, 51, 109]
    case Code => [ESC, 91, 51, 57, 109]
    case Dim => [ESC, 91, 50, 50, 109]
  }

  /** A piece of a styled line. */
  datatype Span = Plain(text: bytes) | Styled(style: Style, text: bytes)

  function SpanBytes(s: Span): bytes {
    match s
    case Plain(t) => t
    case Styled(style, t) => On(style) + t + Off(style)
  }

  function SpansBytes(spans: seq<Span>): bytes {
    if spans == [] then [] else SpanBytes(spans[0]) + SpansBytes(spans[1..])
  }

  /** The text of the spans. */
  function Texts(spans: seq<Span>): bytes {
    if spans == [] then [] else spans[0].text + Texts(spans[1..])
  }

  // ----- inline styling -----

  /** The end of the run of `b` at `i`. */
  function RunEnd(p: bytes, i: nat, b: byte): (k: nat)
    requires i <= |p|
    ensures i <= k <= |p| && (i < |p| && p[i] == b ==> i < k) && forall j :: i <= j < k ==> p[j] == b
    decreases |p| - i
  {
    if i < |p| && p[i] == b then RunEnd(p, i + 1, b) else i
  }

  /** Where the first run of at least `run` stars from `scan` on begins; |p| for none. */
  function ClosingRun(p: bytes, scan: nat, run: nat): (c: nat)
    requires scan <= |p| && run >= 1
    ensures scan <= c <= |p| && (c < |p| ==> c + run <= |p|)
    decreases |p| - scan
  {
    if scan == |p| then |p|
    else if p[scan] != STAR then ClosingRun(p, scan + 1, run)
    else
      var k := RunEnd(p, scan, STAR);
      if k - scan >= run then scan else ClosingRun(p, k, run)
  }

  /** How many stars open an emphasis: two for bold. */
  function OpeningRun(p: bytes): (n: nat)
    requires p != []
    ensures 1 <= n <= 2 && n <= |p|
  {
    if |p| > 1 && p[1] == STAR then 2 else 1
  }

  /** The span that begins a text, and how many bytes it takes: an escape, a code span, emphasis, or a plain byte. */
  function First(p: bytes): (r: (Span, nat))
    requires p != []
    ensures 1 <= r.1 <= |p|
  {
    if p[0] == BACKSLASH && |p| > 1 then (Plain([p[1]]), 2)
    else if p[0] == BACKTICK then
      var j := 1 + Find(p[1..], BACKTICK);
      if j < |p| then (Styled(Code, p[1..j]), j + 1) else (Plain([p[0]]), 1)
    else if p[0] == STAR then
      var run := OpeningRun(p);
      var close := ClosingRun(p, run, run);
      if close == |p| then (Plain(p[..run]), run)
      else (Styled(if run == 2 then Bold else Italic, p[run..close]), close + run)
    else (Plain([p[0]]), 1)
  }

  /** inline_pass: one level deep, from left to right. */
  function Inline(p: bytes): seq<Span>
    decreases |p|
  {
    if p == [] then []
    else
      var (sp, used) := First(p);
      [sp] + Inline(p[used..])
  }

  // ----- a line -----

  predicate FenceAt(p: bytes, i: nat, b: byte) {
    i + 3 <= |p| && p[i] == b && p[i + 1] == b && p[i + 2] == b
  }

  /** is_fence. */
  predicate IsFence(p: bytes) {
    var i := RunEnd(p, 0, SPACE);
    FenceAt(p, i, BACKTICK) || FenceAt(p, i, TILDE)
  }

  function Blanks(p: bytes, i: nat): (k: nat)
    requires i <= |p|
    ensures i <= k <= |p|
    decreases |p| - i
  {
    if i < |p| && (p[i] == SPACE || p[i] == TAB) then Blanks(p, i + 1) else i
  }

  predicate IsDigit(b: byte) { 48 <= b <= 57 }

  function Digits(p: bytes, i: nat): (k: nat)
    requires i <= |p|
    ensures i <= k <= |p|
    decreases |p| - i
  {
    if i < |p| && IsDigit(p[i]) then Digits(p, i + 1) else i
  }

  /** block_prefix: the length of a quote or list marker. */
  function BlockPrefix(p: bytes): (n: nat)
    ensures n <= |p|
  {
    var i := Blanks(p, 0);
    if i >= |p| then 0
    else if p[i] == 62 then (if i + 1 < |p| && p[i + 1] == SPACE then i + 2 else i + 1)
    else if (p[i] == 45 || p[i] == STAR || p[i] == 43) && i + 1 < |p| && p[i + 1] == SPACE then i + 2
    else
      var j := Digits(p, i);
      if j > i && j + 1 < |p| && (p[j] == 46 || p[j] == 41) && p[j + 1] == SPACE then j + 2 else 0
  }

  function Min(a: nat, b: nat): nat { if a < b then a else b }

  /** Where the text of a heading starts; None for a line that is no heading. */
  function HeadingText(p: bytes): (r: Option<nat>)
    ensures r.Some? ==> r.value <= |p|
  {
    var i := Min(RunEnd(p, 0, SPACE), 3);
    var hashes := Min(RunEnd(p, i, HASH) - i, 6);
    var start := i + hashes;
    if hashes == 0 || (start < |p| && p[start] != SPACE) then None
    else Some(if start < |p| then start + 1 else start)
  }

  /** normal_line. */
  function NormalLine(p: bytes): seq<Span> {
    match HeadingText(p)
    case Some(start) => [Styled(Bold, p[start..])]
    case None =>
      var prefix := BlockPrefix(p);
      (if prefix > 0 then [Plain(p[..prefix])] else []) + Inline(p[prefix..])
  }

  /** style_line. */
  function StyleLine(p: bytes, inFence: bool): seq<Span> {
    if IsFence(p) then [Styled(Dim, p)] else if inFence then [Styled(Code, p)] else NormalLine(p)
  }

  // ----- a stream -----

  /** The renderer and everything it has appended to `out`. */
  datatype Render = Render(line: bytes, inFence: bool, overflowed: bool, ended: bool, out: bytes)

  const INIT := Render([], false, false, true, [])

  /** The line accumulated so far, styled. */
  function Emitted(r: Render): Render {
    r.(inFence := if IsFence(r.line) then !r.inFence else r.inFence,
        out := r.out + SpansBytes(StyleLine(r.line, r.inFence)))
  }

  /** One byte of render_feed. */
  function Step(r: Render, b: byte): Render {
    if b == LF then
      var s := if r.overflowed then r else Emitted(r);
      s.(line := [], overflowed := false, ended := true, out := s.out + [LF])
    else if r.overflowed then r.(ended := false, out := r.out + [b])
    else if |r.line| < LINE_MAX then r.(line := r.line + [b])
    else r.(line := [], overflowed := true, ended := false, out := r.out + r.line + [b])
  }

  function Run(r: Render, s: bytes): Render {
    if s == [] then r else Step(Run(r, s[..|s| - 1]), s[|s| - 1])
  }

  /** render_flush. */
  function Flush(r: Render): Render {
    var s := if !r.overflowed && r.line != [] then Emitted(r).(ended := false) else r;
    s.(line := [], overflowed := false, inFence := false)
  }
}
