/** What markdown lines come out as, in the words of a writer: marked pieces, headings, fences, whole pages. */
module RenderWritten {
  import opened Bytes
  import opened RenderSpec
  import L = RenderLaws

  // ----- pieces of a line -----

  /** A byte that marks nothing, an escaped byte, a code span, emphasis, or marks that are never closed. */
  datatype Piece =
    | Char(b: byte)
    | Escaped(b: byte)
    | Ticked(text: bytes)
    | Starred(text: bytes)
    | DoubleStarred(text: bytes)
    | Lone(marks: bytes)

  const TICKS: bytes := [BACKTICK]
  const STARS1: bytes := [STAR]
  const STARS2: bytes := [STAR, STAR]

  function Source(p: Piece): (s: bytes)
    ensures p.Lone? || s != []
  {
    match p
    case Char(b) => [b]
    case Escaped(b) => [BACKSLASH, b]
    case Ticked(t) => TICKS + t + TICKS
    case Starred(t) => STARS1 + t + STARS1
    case DoubleStarred(t) => STARS2 + t + STARS2
    case Lone(marks) => marks
  }

  function Sources(ps: seq<Piece>): bytes {
    if ps == [] then [] else Source(ps[0]) + Sources(ps[1..])
  }

  /** No two stars stand side by side. */
  predicate NoPair(s: bytes) { forall i :: 0 < i < |s| ==> s[i - 1] != STAR || s[i] != STAR }

  /** The piece is read as itself when `rest` follows it on the line. */
  predicate Well(p: Piece, rest: bytes) {
    match p
    case Char(b) => b != STAR && b != BACKTICK && (b == BACKSLASH ==> rest == [])
    case Escaped(_) => true
    case Ticked(t) => BACKTICK !in t
    case Starred(t) => t != [] && STAR !in t
    case DoubleStarred(t) => NoPair(t) && (t != [] ==> t[|t| - 1] != STAR)
    case Lone(marks) =>
      || (marks == TICKS && BACKTICK !in rest)
      || (marks == STARS1 && STAR !in rest)
      || (marks == STARS2 && NoPair(rest))
  }

  predicate AllWell(ps: seq<Piece>) {
    ps != [] ==> Well(ps[0], Sources(ps[1..])) && AllWell(ps[1..])
  }

  /** The terminal's escape sequence with this number. */
  function Sgr(code: string): bytes
    requires forall i :: 0 <= i < |code| ==> code[i] as int < 256
  {
    [27] + Ascii("[") + Ascii(code) + Ascii("m")
  }

  /** Bold is 1 until 22, italic 3 until 23, code cyan 36 until 39, dim 2 until 22. */
  function InBold(t: bytes): bytes { Sgr("1") + t + Sgr("22") }
  function InItalic(t: bytes): bytes { Sgr("3") + t + Sgr("23") }
  function InCode(t: bytes): bytes { Sgr("36") + t + Sgr("39") }
  function InDim(t: bytes): bytes { Sgr("2") + t + Sgr("22") }

  function Look(p: Piece): bytes {
    match p
    case Char(b) => [b]
    case Escaped(b) => [b]
    case Ticked(t) => InCode(t)
    case Starred(t) => InItalic(t)
    case DoubleStarred(t) => InBold(t)
    case Lone(marks) => marks
  }

  function Looks(ps: seq<Piece>): bytes {
    if ps == [] then [] else Look(ps[0]) + Looks(ps[1..])
  }

  lemma StyledLooks(t: bytes)
    ensures SpanBytes(Styled(Bold, t)) == InBold(t)
    ensures SpanBytes(Styled(Italic, t)) == InItalic(t)
    ensures SpanBytes(Styled(Code, t)) == InCode(t)
    ensures SpanBytes(Styled(Dim, t)) == InDim(t)
  {
    assert Sgr("1") == On(Bold) && Sgr("22") == Off(Bold);
    assert Sgr("3") == On(Italic) && Sgr("23") == Off(Italic);
    assert Sgr("36") == On(Code) && Sgr("39") == Off(Code);
    assert Sgr("2") == On(Dim) && Sgr("22") == Off(Dim);
  }

  // ----- runs of stars -----

  lemma {:induction false} OneStar(p: bytes, i: nat)
    requires i < |p| && p[i] == STAR && (i + 1 < |p| ==> p[i + 1] != STAR)
    ensures RunEnd(p, i, STAR) == i + 1
  {
    assert RunEnd(p, i, STAR) == RunEnd(p, i + 1, STAR);
  }

  /** The stars at `close` are the first that are enough to close. */
  lemma {:induction false} Closes(p: bytes, scan: nat, close: nat, run: nat)
    requires scan <= close && close + run <= |p| && 1 <= run <= 2
    requires forall j :: close <= j < close + run ==> p[j] == STAR
    requires run == 1 ==> STAR !in p[scan..close]
    requires run == 2 ==> NoPair(p[scan..close]) && (scan < close ==> p[close - 1] != STAR)
    ensures ClosingRun(p, scan, run) == close
    decreases close - scan
  {
    hide RunEnd, NoPair;
    if scan == close {
      Longer(p, scan, run);
    } else {
      assert p[scan] == p[scan..close][0];
      StillNone(p, scan, close);
      if p[scan] != STAR {
        Closes(p, scan + 1, close, run);
      } else {
        assert p[scan] in p[scan..close];
        OneStar(p, scan);
        Closes(p, scan + 1, close, run);
      }
    }
  }

  lemma Longer(p: bytes, i: nat, run: nat)
    requires 1 <= run <= 2 && i + run <= |p| && forall j :: i <= j < i + run ==> p[j] == STAR
    ensures RunEnd(p, i, STAR) - i >= run
  {
    assert p[i] == STAR;
    if run == 2 { assert p[i + 1] == STAR && RunEnd(p, i, STAR) == RunEnd(p, i + 1, STAR); }
  }

  /** What holds of a stretch holds of it without its first byte. */
  lemma StillNone(p: bytes, scan: nat, close: nat)
    requires scan < close <= |p|
    ensures STAR !in p[scan..close] ==> STAR !in p[scan + 1..close]
    ensures NoPair(p[scan..close]) ==> NoPair(p[scan + 1..close])
    ensures NoPair(p[scan..close]) && p[scan] == STAR && scan + 1 < close ==> p[scan + 1] != STAR
  {
    var s := p[scan..close];
    assert s[1..] == p[scan + 1..close] && s[0] == p[scan];
    if scan + 1 < close { assert s[1] == p[scan + 1]; }
  }

  /** No run from `scan` on is long enough. */
  lemma {:induction false} NeverCloses(p: bytes, scan: nat, run: nat)
    requires scan <= |p| && 1 <= run <= 2
    requires if run == 1 then STAR !in p[scan..] else NoPair(p[scan..])
    ensures ClosingRun(p, scan, run) == |p|
    decreases |p| - scan
  {
    hide RunEnd, NoPair;
    if scan < |p| {
      assert p[scan..|p|] == p[scan..] && p[scan + 1..|p|] == p[scan + 1..];
      StillNone(p, scan, |p|);
      if p[scan] == STAR {
        assert p[scan] == p[scan..][0];
        OneStar(p, scan);
      }
      NeverCloses(p, scan + 1, run);
    }
  }

  lemma {:induction false} FindsAfter(t: bytes, b: byte, rest: bytes)
    requires b !in t
    ensures Find(t + [b] + rest, b) == |t|
  {
    var s := t + [b] + rest;
    assert s[|t|] == b;
    assert forall i :: 0 <= i < |t| ==> s[i] == t[i];
  }

  lemma FindsNone(s: bytes, b: byte)
    requires b !in s
    ensures Find(s, b) == |s|
  {
  }

  // ----- one piece -----

  lemma TickedFirst(t: bytes, rest: bytes)
    requires BACKTICK !in t
    ensures First(TICKS + t + TICKS + rest) == (Styled(Code, t), |t| + 2)
  {
    var p := TICKS + t + TICKS + rest;
    FindsAfter(t, BACKTICK, rest);
    assert p[1..] == t + [BACKTICK] + rest;
    assert p[1..1 + |t|] == t;
  }

  lemma StarredFirst(t: bytes, rest: bytes)
    requires t != [] && STAR !in t
    ensures First(STARS1 + t + STARS1 + rest) == (Styled(Italic, t), |t| + 2)
  {
    hide ClosingRun, Find;
    var p := STARS1 + t + STARS1 + rest;
    assert p[1..1 + |t|] == t && p[1] == t[0] && p[1 + |t|] == STAR;
    Closes(p, 1, 1 + |t|, 1);
  }

  lemma DoubleStarredFirst(t: bytes, rest: bytes)
    requires NoPair(t) && (t != [] ==> t[|t| - 1] != STAR)
    ensures First(STARS2 + t + STARS2 + rest) == (Styled(Bold, t), |t| + 4)
  {
    hide ClosingRun, Find, NoPair;
    var p := STARS2 + t + STARS2 + rest;
    assert p[2..2 + |t|] == t && p[2 + |t|] == STAR && p[3 + |t|] == STAR;
    if t != [] { assert p[1 + |t|] == t[|t| - 1]; }
    Closes(p, 2, 2 + |t|, 2);
  }

  lemma LoneFirst(marks: bytes, rest: bytes)
    requires Well(Lone(marks), rest)
    ensures First(marks + rest) == (Plain(marks), |marks|)
  {
    hide ClosingRun, Find, NoPair;
    var p := marks + rest;
    assert p[|marks|..] == rest && p[..|marks|] == marks;
    if marks == TICKS && BACKTICK !in rest {
      FindsNone(rest, BACKTICK);
    } else if marks == STARS1 && STAR !in rest {
      NeverCloses(p, 1, 1);
    } else {
      NeverCloses(p, 2, 2);
    }
  }

  /** The span that a piece is read as. */
  function Read(p: Piece): Span {
    match p
    case Char(b) => Plain([b])
    case Escaped(b) => Plain([b])
    case Ticked(t) => Styled(Code, t)
    case Starred(t) => Styled(Italic, t)
    case DoubleStarred(t) => Styled(Bold, t)
    case Lone(marks) => Plain(marks)
  }

  lemma PieceFirst(p: Piece, rest: bytes)
    requires Well(p, rest)
    ensures Source(p) != [] && First(Source(p) + rest) == (Read(p), |Source(p)|)
    ensures SpanBytes(Read(p)) == Look(p)
  {
    hide ClosingRun, Find, NoPair, Sgr;
    match p
    case Char(_) =>
    case Escaped(_) =>
    case Ticked(t) => TickedFirst(t, rest); StyledLooks(t);
    case Starred(t) => StarredFirst(t, rest); StyledLooks(t);
    case DoubleStarred(t) => DoubleStarredFirst(t, rest); StyledLooks(t);
    case Lone(marks) => LoneFirst(marks, rest);
  }

  /** However a text is written in pieces, it comes out as their looks. */
  lemma {:induction false} PiecesShow(ps: seq<Piece>)
    requires AllWell(ps)
    ensures SpansBytes(Inline(Sources(ps))) == Looks(ps)
  {
    hide Well, First, Source, Look, Read, SpanBytes;
    L.NoSpans();
    if ps != [] {
      var rest := Sources(ps[1..]);
      var p := Source(ps[0]) + rest;
      PieceFirst(ps[0], rest);
      PiecesShow(ps[1..]);
      assert p[|Source(ps[0])|..] == rest;
      L.OneSpan(Read(ps[0]), Inline(rest));
    }
  }

  // ----- every text is written in pieces -----

  lemma NoTick(p: bytes)
    requires p != [] && 1 + Find(p[1..], BACKTICK) >= |p|
    ensures BACKTICK !in p[1..]
  {
  }

  /** Up to the closing run there is none. */
  lemma {:induction false} BeforeClosing(p: bytes, scan: nat, run: nat)
    requires scan <= |p| && 1 <= run <= 2
    ensures var c := ClosingRun(p, scan, run);
      && (run == 1 ==> STAR !in p[scan..c])
      && (run == 2 ==> NoPair(p[scan..c]) && (scan < c < |p| ==> p[c - 1] != STAR))
      && (c < |p| ==> forall j :: c <= j < c + run ==> p[j] == STAR)
    decreases |p| - scan
  {
    hide NoPair, RunEnd;
    var c := ClosingRun(p, scan, run);
    if scan == |p| || p[scan] != STAR || RunEnd(p, scan, STAR) - scan >= run {
      NoPairs(p, scan);
      if scan < |p| && p[scan] != STAR {
        BeforeClosing(p, scan + 1, run);
        OneMore(p, scan, c);
      } else if scan < |p| {
        RunIsStars(p, scan);
      }
    } else {
      RunIsStars(p, scan);
      BeforeClosing(p, scan + 1, run);
      OneMore(p, scan, c);
      NotAtOnce(p, scan + 1, run);
    }
  }

  /** A run ends where no star follows. */
  lemma {:induction false} RunIsStars(p: bytes, i: nat)
    requires i < |p| && p[i] == STAR
    ensures var k := RunEnd(p, i, STAR);
      && i < k <= |p| && (forall j :: i <= j < k ==> p[j] == STAR) && (k < |p| ==> p[k] != STAR)
    decreases |p| - i
  {
    assert RunEnd(p, i, STAR) == RunEnd(p, i + 1, STAR);
    if i + 1 < |p| && p[i + 1] == STAR { RunIsStars(p, i + 1); }
  }

  lemma NotAtOnce(p: bytes, scan: nat, run: nat)
    requires scan <= |p| && run >= 1 && (scan < |p| ==> p[scan] != STAR)
    ensures ClosingRun(p, scan, run) > scan || scan == |p|
  {
  }

  lemma NoPairs(p: bytes, i: nat)
    requires i <= |p|
    ensures NoPair(p[i..i]) && STAR !in p[i..i]
  {
  }

  lemma OneMore(p: bytes, scan: nat, c: nat)
    requires scan < c <= |p|
    ensures p[scan] != STAR && STAR !in p[scan + 1..c] ==> STAR !in p[scan..c]
    ensures NoPair(p[scan + 1..c]) && (p[scan] != STAR || scan + 1 == c || p[scan + 1] != STAR) ==> NoPair(p[scan..c])
  {
    var s, t := p[scan..c], p[scan + 1..c];
    assert s == [p[scan]] + t;
    if NoPair(t) && (p[scan] != STAR || scan + 1 == c || p[scan + 1] != STAR) {
      forall i | 0 < i < |s| ensures s[i - 1] != STAR || s[i] != STAR {
        if i > 1 { assert s[i - 1] == t[i - 2] && s[i] == t[i - 1]; }
      }
    }
  }

  lemma FirstTick(p: bytes) returns (x: Piece)
    requires p != [] && p[0] == BACKTICK
    ensures var used := First(p).1; Source(x) == p[..used] && Well(x, p[used..])
  {
    hide Find, NoPair;
    var j := 1 + Find(p[1..], BACKTICK);
    if j < |p| {
      assert p[j] == p[1..][j - 1] && p[1..j] == p[1..][..j - 1];
      assert p[..j + 1] == TICKS + p[1..j] + TICKS;
      x := Ticked(p[1..j]);
    } else {
      NoTick(p);
      assert p[..1] == TICKS;
      x := Lone(TICKS);
    }
  }

  /** The piece that a text begins with. */
  lemma FirstPiece(p: bytes) returns (x: Piece)
    requires p != []
    ensures var used := First(p).1; Source(x) == p[..used] && Well(x, p[used..])
  {
    hide ClosingRun, Find, NoPair;
    if p[0] == BACKSLASH && |p| > 1 {
      assert p[..2] == [p[0], p[1]];
      x := Escaped(p[1]);
    } else if p[0] == BACKTICK {
      x := FirstTick(p);
    } else if p[0] == STAR {
      x := FirstStars(p);
    } else {
      assert p[..1] == [p[0]];
      x := Char(p[0]);
    }
  }

  lemma FirstStars(p: bytes) returns (x: Piece)
    requires p != [] && p[0] == STAR
    ensures var used := First(p).1; Source(x) == p[..used] && Well(x, p[used..])
  {
    hide ClosingRun, Find, NoPair;
    var run := OpeningRun(p);
    BeforeClosing(p, run, run);
    if run == 1 { NotAtOnce(p, run, run); }
    var c := ClosingRun(p, run, run);
    assert p[..run] == if run == 1 then STARS1 else STARS2;
    if c == |p| {
      assert p[run..c] == p[run..];
      x := Lone(p[..run]);
    } else {
      var t := p[run..c];
      assert p[c..c + run] == p[..run];
      assert p[..c + run] == p[..run] + t + p[c..c + run];
      if run == 1 {
        x := Starred(t);
      } else {
        if t != [] { assert t[|t| - 1] == p[c - 1]; }
        x := DoubleStarred(t);
      }
    }
  }

  lemma {:induction false} EveryTextIsWritten(p: bytes) returns (ps: seq<Piece>)
    ensures AllWell(ps) && Sources(ps) == p
    decreases |p|
  {
    hide First, Well, Source;
    if p == [] {
      ps := [];
    } else {
      var used := First(p).1;
      var x := FirstPiece(p);
      var more := EveryTextIsWritten(p[used..]);
      ps := [x] + more;
      assert ps[0] == x && ps[1..] == more && p[..used] + p[used..] == p;
    }
  }

  // ----- a line -----

  predicate Only(s: bytes, b: byte) { forall i :: 0 <= i < |s| ==> s[i] == b }

  predicate OnlyBlanks(s: bytes) { forall i :: 0 <= i < |s| ==> s[i] == SPACE || s[i] == TAB }

  predicate OnlyDigits(s: bytes) { forall i :: 0 <= i < |s| ==> 48 <= s[i] <= 57 }

  /** Spaces and three backticks or tildes. */
  ghost predicate FenceLine(p: bytes) {
    exists n :: 0 <= n && n + 3 <= |p| && Only(p[..n], SPACE) && (Only(p[n..n + 3], 96) || Only(p[n..n + 3], 126))
  }

  /** Up to three spaces, one to six hashes, and either nothing or a space and the text. */
  predicate HeadingParts(p: bytes, n: nat, k: nat, text: bytes) {
    && n <= 3 && 1 <= k <= 6 && n + k <= |p| && Only(p[..n], SPACE) && Only(p[n..n + k], 35)
    && (p[n + k..] == [SPACE] + text || (p[n + k..] == [] && text == []))
  }

  ghost predicate Heading(p: bytes, text: bytes) { exists n, k :: HeadingParts(p, n, k, text) }

  /** Behind blanks: `>` with its space if there is one, a bullet, or a number; the last two with a space. */
  predicate MarkerParts(m: bytes, rest: bytes, n: nat, d: nat) {
    && n <= d <= |m| && OnlyBlanks(m[..n])
    && (|| (m[n..] == Ascii(">") && (rest == [] || rest[0] != SPACE))
        || m[n..] == Ascii("> ")
        || m[n..] == Ascii("- ") || m[n..] == Ascii("* ") || m[n..] == Ascii("+ ")
        || (n < d && OnlyDigits(m[n..d]) && (m[d..] == Ascii(". ") || m[d..] == Ascii(") "))))
  }

  ghost predicate Marker(m: bytes, rest: bytes) { exists n, d :: MarkerParts(m, rest, n, d) }

  /** The first `n` bytes of the line are its list or quote marker, or it has none and `n` is zero. */
  ghost predicate MarkerEnds(p: bytes, n: nat) {
    && n <= |p|
    && if n > 0 then Marker(p[..n], p[n..]) else forall k :: 0 < k <= |p| ==> !Marker(p[..k], p[k..])
  }

  /** The line, in pieces behind its marker. */
  ghost predicate InPieces(p: bytes, n: nat, ps: seq<Piece>, out: bytes) {
    && MarkerEnds(p, n) && AllWell(ps) && Sources(ps) == p[n..] && out == p[..n] + Looks(ps)
  }

  /** What a line looks like: a fence is dim, fenced text is code, a heading is bold, other text is as its pieces. */
  ghost predicate LooksLike(p: bytes, inFence: bool, out: bytes) {
    if FenceLine(p) then out == InDim(p)
    else if inFence then out == InCode(p)
    else if exists t :: Heading(p, t) then exists t :: Heading(p, t) && out == InBold(t)
    else exists n, ps :: InPieces(p, n, ps, out)
  }

  lemma {:induction false} RunIsOnly(p: bytes, i: nat, b: byte)
    requires i <= |p|
    ensures var k := RunEnd(p, i, b); Only(p[i..k], b) && (k < |p| ==> p[k] != b)
    decreases |p| - i
  {
    if i < |p| && p[i] == b {
      RunIsOnly(p, i + 1, b);
      var k := RunEnd(p, i, b);
      assert p[i..k] == [p[i]] + p[i + 1..k];
    }
  }

  lemma {:induction false} OnlyIsRun(p: bytes, i: nat, k: nat, b: byte)
    requires i <= k <= |p| && Only(p[i..k], b) && (k < |p| ==> p[k] != b)
    ensures RunEnd(p, i, b) == k
    decreases k - i
  {
    if i < k {
      assert p[i] == p[i..k][0] && p[i..k][1..] == p[i + 1..k];
      OnlyIsRun(p, i + 1, k, b);
    }
  }

  lemma FenceIff(p: bytes)
    ensures FenceLine(p) <==> IsFence(p)
  {
    hide RunEnd;
    var i := RunEnd(p, 0, SPACE);
    RunIsOnly(p, 0, SPACE);
    if IsFence(p) {
      assert p[0..i] == p[..i];
      assert Only(p[i..i + 3], p[i]);
    }
    if FenceLine(p) {
      var n :| 0 <= n && n + 3 <= |p| && Only(p[..n], SPACE) && (Only(p[n..n + 3], 96) || Only(p[n..n + 3], 126));
      assert p[0..n] == p[..n] && p[n] == p[n..n + 3][0] && p[n + 1] == p[n..n + 3][1] && p[n + 2] == p[n..n + 3][2];
      OnlyIsRun(p, 0, n, SPACE);
    }
  }

  lemma HeadingReads(p: bytes, n: nat, k: nat, text: bytes)
    requires HeadingParts(p, n, k, text)
    ensures HeadingText(p) == Some(|p| - |text|) && text == p[|p| - |text|..]
  {
    hide RunEnd;
    assert p[0..n] == p[..n] && p[n] == p[n..n + k][0];
    OnlyIsRun(p, 0, n, SPACE);
    if n + k < |p| { assert p[n + k] == p[n + k..][0] == SPACE; }
    OnlyIsRun(p, n, n + k, HASH);
    assert p[n + k..] == [SPACE] + text ==> text == p[n + k..][1..] == p[n + k + 1..];
  }

  lemma FrontOnly(s: bytes, k: nat, b: byte)
    requires k <= |s| && Only(s, b)
    ensures Only(s[..k], b)
  {
  }

  lemma HeadingFound(p: bytes)
    requires HeadingText(p).Some?
    ensures Heading(p, p[HeadingText(p).value..])
  {
    hide RunEnd, Only;
    var spaces := RunEnd(p, 0, SPACE);
    var i := Min(spaces, 3);
    var hashes := RunEnd(p, i, HASH);
    var k := Min(hashes - i, 6);
    RunIsOnly(p, 0, SPACE);
    RunIsOnly(p, i, HASH);
    FrontOnly(p[0..spaces], i, SPACE);
    FrontOnly(p[i..hashes], k, HASH);
    assert p[0..spaces][..i] == p[..i] && p[i..hashes][..k] == p[i..i + k];
    var text := p[HeadingText(p).value..];
    if i + k < |p| { assert p[i + k..] == [SPACE] + text; }
    assert HeadingParts(p, i, k, text);
  }

  lemma HeadingIff(p: bytes, text: bytes)
    ensures Heading(p, text) <==> HeadingText(p).Some? && text == p[HeadingText(p).value..]
  {
    hide HeadingText, HeadingParts;
    if HeadingText(p).Some? { HeadingFound(p); }
    if Heading(p, text) {
      var n, k :| HeadingParts(p, n, k, text);
      HeadingReads(p, n, k, text);
    }
  }

  lemma {:induction false} BlanksEnd(p: bytes, i: nat)
    requires i <= |p|
    ensures var k := Blanks(p, i); OnlyBlanks(p[i..k]) && (k < |p| ==> p[k] != SPACE && p[k] != TAB)
    decreases |p| - i
  {
    var k := Blanks(p, i);
    if i < k {
      BlanksEnd(p, i + 1);
      assert p[i..k] == [p[i]] + p[i + 1..k];
    }
  }

  lemma {:induction false} BlanksAre(p: bytes, i: nat, k: nat)
    requires i <= k < |p| && OnlyBlanks(p[i..k]) && p[k] != SPACE && p[k] != TAB
    ensures Blanks(p, i) == k
    decreases k - i
  {
    if i < k {
      assert p[i] == p[i..k][0] && p[i..k][1..] == p[i + 1..k];
      BlanksAre(p, i + 1, k);
    }
  }

  lemma {:induction false} DigitsEnd(p: bytes, i: nat)
    requires i <= |p|
    ensures var k := Digits(p, i); OnlyDigits(p[i..k]) && (k < |p| ==> !IsDigit(p[k]))
    decreases |p| - i
  {
    var k := Digits(p, i);
    if i < k {
      DigitsEnd(p, i + 1);
      assert p[i..k] == [p[i]] + p[i + 1..k];
    }
  }

  lemma {:induction false} DigitsAre(p: bytes, i: nat, k: nat)
    requires i <= k < |p| && OnlyDigits(p[i..k]) && !IsDigit(p[k])
    ensures Digits(p, i) == k
    decreases k - i
  {
    if i < k {
      assert p[i] == p[i..k][0] && p[i..k][1..] == p[i + 1..k];
      DigitsAre(p, i + 1, k);
    }
  }

  /** Two bytes at the end of a marker. */
  lemma LastTwo(m: bytes, n: nat, s: string)
    requires n <= |m| && |s| == 2 && s[0] as int < 256 && s[1] as int < 256
    ensures m[n..] == Ascii(s) <==> |m| == n + 2 && m[n] == s[0] as int && m[n + 1] == s[1] as int
  {
  }

  /** A marker in front of the rest is what the scan stops behind. */
  lemma MarkerReads(m: bytes, rest: bytes, n: nat, d: nat)
    requires MarkerParts(m, rest, n, d)
    ensures BlockPrefix(m + rest) == |m| && m != []
  {
    hide Blanks, Digits;
    var p := m + rest;
    assert p[0..n] == m[..n] && n < |m| && p[n] == m[n];
    LastTwo(m, n, "> ");
    LastTwo(m, n, "- ");
    LastTwo(m, n, "* ");
    LastTwo(m, n, "+ ");
    LastTwo(m, d, ". ");
    LastTwo(m, d, ") ");
    if n < d && OnlyDigits(m[n..d]) { assert m[n] == m[n..d][0]; }
    BlanksAre(p, 0, n);
    if m[n..] == Ascii(">") {
      assert |m| == n + 1 && m[n] == m[n..][0];
    } else if n < d && OnlyDigits(m[n..d]) && (m[d..] == Ascii(". ") || m[d..] == Ascii(") ")) {
      assert p[n..d] == m[n..d] && p[d] == m[d];
      DigitsAre(p, n, d);
    }
  }

  lemma MarkerFound(p: bytes)
    requires BlockPrefix(p) > 0
    ensures Marker(p[..BlockPrefix(p)], p[BlockPrefix(p)..])
  {
    hide Blanks, Digits;
    var e := BlockPrefix(p);
    var m, n := p[..e], Blanks(p, 0);
    var d := if Digits(p, n) > n then Digits(p, n) else n;
    BlanksEnd(p, 0);
    DigitsEnd(p, n);
    assert p[0..n] == m[..n];
    LastTwo(m, n, "> ");
    LastTwo(m, n, "- ");
    LastTwo(m, n, "* ");
    LastTwo(m, n, "+ ");
    if p[n] == 62 {
      assert e == n + 1 ==> m[n..] == Ascii(">");
      assert MarkerParts(m, p[e..], n, n);
    } else if (p[n] == 45 || p[n] == STAR || p[n] == 43) && n + 1 < |p| && p[n + 1] == SPACE {
      assert MarkerParts(m, p[e..], n, n);
    } else {
      LastTwo(m, d, ". ");
      LastTwo(m, d, ") ");
      assert p[n..d] == m[n..d];
      assert MarkerParts(m, p[e..], n, d);
    }
  }

  lemma MarkerIff(p: bytes, n: nat)
    ensures MarkerEnds(p, n) <==> n == BlockPrefix(p)
  {
    hide BlockPrefix, MarkerParts;
    if BlockPrefix(p) > 0 { MarkerFound(p); }
    forall k | 0 < k <= |p| && Marker(p[..k], p[k..]) ensures k == BlockPrefix(p) {
      var i, d :| MarkerParts(p[..k], p[k..], i, d);
      MarkerReads(p[..k], p[k..], i, d);
      assert p[..k] + p[k..] == p;
    }
  }

  lemma OneStyled(style: Style, t: bytes)
    ensures SpansBytes([Styled(style, t)]) == SpanBytes(Styled(style, t))
  {
    L.NoSpans();
    L.OneSpan(Styled(style, t), []);
    assert [Styled(style, t)] + [] == [Styled(style, t)];
  }

  lemma PlainText(p: bytes)
    ensures SpansBytes((if BlockPrefix(p) > 0 then [Plain(p[..BlockPrefix(p)])] else []) + Inline(p[BlockPrefix(p)..]))
         == p[..BlockPrefix(p)] + SpansBytes(Inline(p[BlockPrefix(p)..]))
  {
    hide BlockPrefix, Inline, SpansBytes;
    var n := BlockPrefix(p);
    if n > 0 {
      L.OneSpan(Plain(p[..n]), Inline(p[n..]));
    } else {
      assert [] + Inline(p[n..]) == Inline(p[n..]) && p[..n] == [];
      assert [] + SpansBytes(Inline(p[n..])) == SpansBytes(Inline(p[n..]));
    }
  }

  /** A line looks one way, and comes out that way. */
  lemma LineLooks(p: bytes, inFence: bool, out: bytes)
    ensures LooksLike(p, inFence, out) <==> out == SpansBytes(StyleLine(p, inFence))
  {
    hide IsFence, FenceLine, HeadingText, Heading, BlockPrefix, MarkerEnds, Inline, SpansBytes, SpanBytes, Sources,
      AllWell, Looks, InBold, InDim, InCode;
    FenceIff(p);
    if FenceLine(p) {
      StyledLooks(p);
      OneStyled(Dim, p);
    } else if inFence {
      StyledLooks(p);
      OneStyled(Code, p);
    } else {
      forall t ensures Heading(p, t) <==> HeadingText(p).Some? && t == p[HeadingText(p).value..] { HeadingIff(p, t); }
      if HeadingText(p).Some? {
        var t := p[HeadingText(p).value..];
        assert Heading(p, t);
        StyledLooks(t);
        OneStyled(Bold, t);
      } else {
        PlainText(p);
        TextLooks(p, out);
      }
    }
  }

  lemma TextLooks(p: bytes, out: bytes)
    ensures (exists n, ps :: InPieces(p, n, ps, out))
      <==> out == p[..BlockPrefix(p)] + SpansBytes(Inline(p[BlockPrefix(p)..]))
  {
    hide BlockPrefix, MarkerEnds, Inline, SpansBytes, Sources, AllWell, Looks;
    var b := BlockPrefix(p);
    var some := EveryTextIsWritten(p[b..]);
    PiecesShow(some);
    MarkerIff(p, b);
    assert InPieces(p, b, some, p[..b] + Looks(some));
    if exists n, ps :: InPieces(p, n, ps, out) {
      var n, ps :| InPieces(p, n, ps, out);
      MarkerIff(p, n);
      PiecesShow(ps);
    }
  }

  // ----- a turn -----

  /** How many of the lines are fences; a line past the limit is none. */
  ghost function Fences(lines: seq<bytes>): nat {
    if lines == [] then 0
    else
      var last := lines[|lines| - 1];
      Fences(lines[..|lines| - 1]) + if |last| <= 1048576 && FenceLine(last) then 1 else 0
  }

  /** Whether what follows these lines is fenced. */
  ghost predicate Fenced(lines: seq<bytes>) { Fences(lines) % 2 == 1 }

  /** A line behind others: as it looks, or unchanged when it is past the limit. */
  ghost predicate ShownAs(before: seq<bytes>, line: bytes, out: bytes) {
    if |line| > 1048576 then out == line else LooksLike(line, Fenced(before), out)
  }

  ghost predicate PageOf(lines: seq<bytes>, outs: seq<bytes>) {
    |outs| == |lines| && forall k :: 0 <= k < |lines| ==> ShownAs(lines[..k], lines[k], outs[k])
  }

  /** Between turns, and between the lines of a turn. */
  predicate AtStart(r: Render, inFence: bool) { r.line == [] && !r.overflowed && r.inFence == inFence }

  /** A line without its end. */
  lemma {:induction false} LineRuns(r: Render, t: bytes)
    requires AtStart(r, r.inFence) && LF !in t
    ensures var s := Run(r, t);
      && s.inFence == r.inFence && s.overflowed == (|t| > LINE_MAX)
      && (|t| <= LINE_MAX ==> s.line == t && s.out == r.out)
      && (|t| > LINE_MAX ==> s.line == [] && s.out == r.out + t)
    decreases |t|
  {
    hide Emitted;
    if t != [] {
      var n := |t| - 1;
      assert LF !in t[..n] && t[n] != LF && t[..n] + [t[n]] == t;
      LineRuns(r, t[..n]);
      assert (r.out + t[..n]) + [t[n]] == r.out + t;
    }
  }

  /** A line and what it comes out as. */
  lemma LineShown(r: Render, before: seq<bytes>, t: bytes) returns (out: bytes)
    requires AtStart(r, Fenced(before)) && LF !in t
    ensures ShownAs(before, t, out)
    ensures var s := Run(r, t + [LF]); AtStart(s, Fenced(before + [t])) && s.out == r.out + out + [LF]
    ensures Flush(Run(r, t)).out == r.out + if t == [] then [] else out
    ensures AtStart(Flush(Run(r, t)), false)
  {
    hide FenceLine, IsFence, StyleLine, SpansBytes, LooksLike;
    out := if |t| > LINE_MAX then t else SpansBytes(StyleLine(t, r.inFence));
    LineRuns(r, t);
    LineLooks(t, r.inFence, out);
    FenceIff(t);
    assert (before + [t])[..|before|] == before;
    assert (t + [LF])[..|t|] == t;
    assert r.out + [] == r.out;
  }

  lemma {:induction false} LinesShown(r: Render, lines: seq<bytes>) returns (outs: seq<bytes>)
    requires AtStart(r, false) && NoFeed(lines)
    ensures PageOf(lines, outs)
    ensures var s := Run(r, Ended(lines)); AtStart(s, Fenced(lines)) && s.out == r.out + Ended(outs)
    decreases |lines|
  {
    hide ShownAs, AtStart, Run, Ended, PageOf, Fenced;
    if lines == [] {
      outs := [];
      NoneFenced(r);
    } else {
      var n := |lines| - 1;
      var before, t := lines[..n], lines[n];
      var front := LinesShown(r, before);
      var out := LineShown(Run(r, Ended(before)), before, t);
      L.RunConcat(r, Ended(before), t + [LF]);
      EndedSnoc(before, t);
      EndedSnoc(front, out);
      PageSnoc(before, front, t, out);
      assert before + [t] == lines && Ended(before) + (t + [LF]) == Ended(lines);
      outs := front + [out];
      Grouped(r.out, Ended(front), out);
    }
  }

  lemma Grouped(a: bytes, b: bytes, c: bytes)
    ensures a + b + c + [LF] == a + (b + c + [LF])
  {
  }

  lemma PageSnoc(lines: seq<bytes>, outs: seq<bytes>, t: bytes, out: bytes)
    requires PageOf(lines, outs) && ShownAs(lines, t, out)
    ensures PageOf(lines + [t], outs + [out])
  {
    hide ShownAs;
    var all := lines + [t];
    assert all[..|lines|] == lines;
    forall k | 0 <= k < |lines| ensures all[..k] == lines[..k] {}
  }

  lemma NoneFenced(r: Render)
    requires AtStart(r, false)
    ensures AtStart(Run(r, []), Fenced([])) && Ended([]) == [] && Run(r, Ended([])).out == r.out + Ended([])
    ensures PageOf([], [])
  {
  }

  /** The calls that feed these pieces. */
  function Feeds(chunks: seq<bytes>): seq<L.Call> {
    if chunks == [] then [] else Feeds(chunks[..|chunks| - 1]) + [L.Feed(chunks[|chunks| - 1])]
  }

  lemma {:induction false} FeedsRun(front: seq<L.Call>, chunks: seq<bytes>)
    ensures L.AfterCalls(front + Feeds(chunks)) == Run(L.AfterCalls(front), Joined(chunks))
    decreases |chunks|
  {
    hide Run;
    if chunks == [] {
      assert front + [] == front;
      RunNothing(L.AfterCalls(front));
    } else {
      var n := |chunks| - 1;
      FeedsRun(front, chunks[..n]);
      var calls := front + Feeds(chunks);
      assert calls[..|calls| - 1] == front + Feeds(chunks[..n]);
      L.RunConcat(L.AfterCalls(front), Joined(chunks[..n]), chunks[n]);
    }
  }

  lemma RunNothing(r: Render)
    ensures Run(r, []) == r
  {
  }

  predicate BetweenTurns(calls: seq<L.Call>) { calls == [] || calls[|calls| - 1].TurnEnds? }

  lemma TurnsStart(calls: seq<L.Call>)
    requires BetweenTurns(calls)
    ensures AtStart(L.AfterCalls(calls), false)
  {
    hide Run, StyleLine;
  }

  /** A turn after any others, in any pieces: its lines come out as they look, and so does an unended last line. */
  lemma TurnLooks(front: seq<L.Call>, chunks: seq<bytes>, lines: seq<bytes>, rest: bytes)
      returns (outs: seq<bytes>, last: bytes)
    requires BetweenTurns(front) && NoFeed(lines) && LF !in rest && Joined(chunks) == Ended(lines) + rest
    ensures PageOf(lines, outs) && ShownAs(lines, rest, last)
    ensures L.AfterCalls(front + Feeds(chunks) + [L.TurnEnds]).out
         == L.AfterCalls(front).out + Ended(outs) + if rest == [] then [] else last
  {
    hide Run, Flush, AtStart, PageOf, ShownAs, Fenced;
    var r := L.AfterCalls(front);
    TurnsStart(front);
    FeedsRun(front, chunks);
    outs := LinesShown(r, lines);
    L.RunConcat(r, Ended(lines), rest);
    last := LineShown(Run(r, Ended(lines)), lines, rest);
    var calls := front + Feeds(chunks) + [L.TurnEnds];
    assert calls[..|calls| - 1] == front + Feeds(chunks);
  }
}
