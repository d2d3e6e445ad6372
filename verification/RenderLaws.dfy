/**
 What the renderer's output is: the same for every chunking, never a style left open, the input's text and no more.
 */
module RenderLaws {
  import opened Bytes
  import opened RenderSpec

  /** Any chunking of the input: the output depends on the bytes alone. */
  lemma {:induction false} RunConcat(r: Render, a: bytes, b: bytes)
    ensures Run(r, a + b) == Run(Run(r, a), b)
    decreases |b|
  {
    hide Step;
    if b == [] {
      assert a + b == a;
    } else {
      RunConcat(r, a, b[..|b| - 1]);
      assert (a + b)[..|a + b| - 1] == a + b[..|b| - 1];
    }
  }

  // ----- reading the output as a terminal does -----

  /** A sequence that the renderer uses: its length, and what it switches on or off. */
  datatype Sgr = Sgr(length: nat, on: set<Style>, off: set<Style>)

  predicate Starts(s: bytes, t: bytes) { |t| <= |s| && s[..|t|] == t }

  function SgrAt(s: bytes): (g: Option<Sgr>)
    ensures g.Some? ==> 0 < g.value.length <= |s| && s[0] == ESC
  {
    if Starts(s, On(Bold)) then Some(Sgr(4, {Bold}, {}))
    else if Starts(s, On(Italic)) then Some(Sgr(4, {Italic}, {}))
    else if Starts(s, On(Dim)) then Some(Sgr(4, {Dim}, {}))
    else if Starts(s, On(Code)) then Some(Sgr(5, {Code}, {}))
    else if Starts(s, Off(Bold)) then Some(Sgr(5, {}, {Bold, Dim}))
    else if Starts(s, Off(Italic)) then Some(Sgr(5, {}, {Italic}))
    else if Starts(s, Off(Code)) then Some(Sgr(5, {}, {Code}))
    else None
  }

  /** What a terminal shows, and the styles still on at the end. */
  datatype Shown = Shown(text: bytes, open: set<Style>)

  function Show(s: bytes, open: set<Style>): Shown
    decreases |s|
  {
    if s == [] then Shown([], open)
    else match SgrAt(s)
      case Some(g) => Show(s[g.length..], open + g.on - g.off)
      case None => var rest := Show(s[1..], open); Shown([s[0]] + rest.text, rest.open)
  }

  lemma {:induction false} ShowText(t: bytes, rest: bytes, open: set<Style>)
    requires ESC !in t
    ensures Show(t + rest, open) == Shown(t + Show(rest, open).text, Show(rest, open).open)
    decreases |t|
  {
    hide SgrAt;
    if t == [] {
      assert t + rest == rest && t + Show(rest, open).text == Show(rest, open).text;
    } else {
      assert (t + rest)[1..] == t[1..] + rest && (t + rest)[0] == t[0];
      assert t[0] in t;
      ShowText(t[1..], rest, open);
      assert [t[0]] + (t[1..] + Show(rest, open).text) == t + Show(rest, open).text;
    }
  }

  lemma ShowOn(style: Style, rest: bytes)
    ensures Show(On(style) + rest, {}) == Show(rest, {style})
  {
    var s := On(style) + rest;
    assert s[..|On(style)|] == On(style) && s[|On(style)|..] == rest;
    assert {} + {style} - {} == {style};
    OnIsOn(style, rest);
  }

  lemma OnIsOn(style: Style, rest: bytes)
    ensures SgrAt(On(style) + rest) == Some(Sgr(|On(style)|, {style}, {}))
  {
    var s := On(style) + rest;
    assert s[..|On(style)|] == On(style);
    assert |s| >= 4 && s[2] == On(style)[2] && s[3] == On(style)[3];
    assert s[..4][2] == s[2] && s[..4][3] == s[3];
    assert |s| >= 5 ==> s[..5][3] == s[3] && s[..5][2] == s[2];
  }

  lemma OffIsOff(style: Style, rest: bytes)
    ensures SgrAt(Off(style) + rest).Some?
    ensures var g := SgrAt(Off(style) + rest).value;
      g.length == |Off(style)| && g.on == {} && style in g.off
  {
    var s := Off(style) + rest;
    assert s[..5] == Off(style);
    assert s[2] == Off(style)[2] && s[3] == Off(style)[3];
    assert s[..4][2] == s[2] && s[..4][3] == s[3];
    assert s[..5][3] == s[3] && s[..5][2] == s[2];
  }

  lemma ShowOff(style: Style, rest: bytes)
    ensures Show(Off(style) + rest, {style}) == Show(rest, {})
  {
    hide SgrAt;
    OffIsOff(style, rest);
    var s := Off(style) + rest;
    var g := SgrAt(s).value;
    assert s[|Off(style)|..] == rest;
    assert {style} + g.on - g.off == {};
  }

  /** A span shows its text, and leaves no style on. */
  lemma ShowSpan(sp: Span, rest: bytes)
    requires ESC !in sp.text
    ensures Show(SpanBytes(sp) + rest, {}) == Shown(sp.text + Show(rest, {}).text, Show(rest, {}).open)
  {
    hide Show;
    match sp
    case Plain(t) => ShowText(t, rest, {});
    case Styled(style, t) =>
      assert On(style) + t + Off(style) + rest == On(style) + (t + (Off(style) + rest));
      ShowOn(style, t + (Off(style) + rest));
      ShowText(t, Off(style) + rest, {style});
      ShowOff(style, rest);
  }

  lemma {:induction false} ShowSpans(spans: seq<Span>, rest: bytes)
    requires ESC !in Texts(spans)
    ensures Show(SpansBytes(spans) + rest, {}) == Shown(Texts(spans) + Show(rest, {}).text, Show(rest, {}).open)
  {
    hide Show, SpanBytes;
    if spans == [] {
      assert SpansBytes(spans) + rest == rest && Texts(spans) + Show(rest, {}).text == Show(rest, {}).text;
    } else {
      var more := SpansBytes(spans[1..]) + rest;
      assert SpansBytes(spans) + rest == SpanBytes(spans[0]) + more;
      assert forall b :: b in spans[0].text ==> b in Texts(spans);
      assert forall b :: b in Texts(spans[1..]) ==> b in Texts(spans);
      ShowSpan(spans[0], more);
      ShowSpans(spans[1..], rest);
      assert spans[0].text + (Texts(spans[1..]) + Show(rest, {}).text) == Texts(spans) + Show(rest, {}).text;
    }
  }

  // ----- the text of a line -----

  /** `a` can be had from `b` by leaving bytes out. */
  predicate Within(a: bytes, b: bytes)
    decreases |b|
  {
    a == [] || (b != [] && ((a[0] == b[0] && Within(a[1..], b[1..])) || Within(a, b[1..])))
  }

  lemma {:induction false} WithinSelf(a: bytes)
    ensures Within(a, a)
  {
    if a != [] { WithinSelf(a[1..]); }
  }

  lemma {:induction false} WithinBehind(a: bytes, front: bytes, b: bytes)
    requires Within(a, b)
    ensures Within(a, front + b)
    decreases |front|
  {
    if front == [] {
      assert front + b == b;
    } else {
      WithinBehind(a, front[1..], b);
      assert (front + b)[1..] == front[1..] + b;
    }
  }

  lemma {:induction false} WithinConcat(a: bytes, c: bytes, b: bytes, d: bytes)
    requires Within(a, b) && Within(c, d)
    ensures Within(a + c, b + d)
    decreases |b|
  {
    if a == [] {
      assert a + c == c;
      WithinBehind(c, b, d);
    } else {
      assert (b + d)[1..] == b[1..] + d;
      if a[0] == b[0] && Within(a[1..], b[1..]) {
        WithinConcat(a[1..], c, b[1..], d);
        assert (a + c)[1..] == a[1..] + c;
      } else {
        WithinConcat(a, c, b[1..], d);
      }
    }
  }

  /** A slice of a front part, and what comes of the rest. */
  lemma SliceThenRest(p: bytes, from: nat, to: nat, next: nat, spans: seq<Span>, rest: seq<Span>)
    requires from <= to <= next <= |p| && |spans| == 1 && spans[0].text == p[from..to]
    requires Within(Texts(rest), p[next..])
    ensures Within(Texts(spans + rest), p)
  {
    var mine := p[from..to];
    assert (spans + rest)[0] == spans[0] && (spans + rest)[1..] == rest;
    WithinSelf(mine);
    WithinConcat(mine, [], mine, p[to..next]);
    assert mine + [] == mine;
    WithinBehind(mine, p[..from], mine + p[to..next]);
    assert p[..from] + (mine + p[to..next]) == p[..next];
    WithinConcat(mine, Texts(rest), p[..next], p[next..]);
    assert p[..next] + p[next..] == p;
  }

  /** A span's text is a slice of the bytes that it takes. */
  lemma FirstIsSlice(p: bytes) returns (from: nat, to: nat)
    requires p != []
    ensures from <= to <= First(p).1 && First(p).0.text == p[from..to]
    ensures |SpanBytes(First(p).0)| <= 5 * First(p).1 && SpanBytes(First(p).0) != []
  {
    hide ClosingRun, Find;
    var (sp, used) := First(p);
    if p[0] == BACKSLASH && |p| > 1 {
      from, to := 1, 2;
    } else if sp.Plain? {
      from, to := 0, used;
    } else if p[0] == BACKTICK {
      from, to := 1, used - 1;
    } else {
      var run := OpeningRun(p);
      from, to := run, used - run;
    }
  }

  lemma {:induction false} InlineText(p: bytes)
    ensures Within(Texts(Inline(p)), p)
    decreases |p|
  {
    hide Within, Texts, First;
    if p == [] {
      Nothing();
    } else {
      var (sp, used) := First(p);
      var from, to := FirstIsSlice(p);
      InlineText(p[used..]);
      SliceThenRest(p, from, to, used, [sp], Inline(p[used..]));
    }
  }

  lemma Nothing()
    ensures Within(Texts([]), [])
  {
  }

  /** The text of a styled line is the line with some bytes left out. */
  lemma LineText(p: bytes, inFence: bool)
    ensures Within(Texts(StyleLine(p, inFence)), p)
  {
    hide Within, Texts, Inline, IsFence, HeadingText, BlockPrefix;
    Nothing();
    assert p[0..|p|] == p && p[|p|..] == [];
    if IsFence(p) || inFence {
      var sp := Styled(if IsFence(p) then Dim else Code, p);
      SliceThenRest(p, 0, |p|, |p|, [sp], []);
      assert [sp] + [] == StyleLine(p, inFence);
    } else if HeadingText(p).Some? {
      var sp := Styled(Bold, p[HeadingText(p).value..]);
      SliceThenRest(p, HeadingText(p).value, |p|, |p|, [sp], []);
      assert [sp] + [] == StyleLine(p, inFence);
    } else {
      var prefix := BlockPrefix(p);
      InlineText(p[prefix..]);
      if prefix > 0 {
        SliceThenRest(p, 0, prefix, prefix, [Plain(p[..prefix])], Inline(p[prefix..]));
      } else {
        assert [] + Inline(p[prefix..]) == Inline(p[prefix..]);
      }
    }
  }

  lemma {:induction false} WithinKeeps(a: bytes, b: bytes, x: byte)
    requires Within(a, b) && x in a
    ensures x in b
    decreases |b|
  {
    if a[0] == b[0] && Within(a[1..], b[1..]) {
      if x != a[0] {
        assert x in a[1..] by { assert a == [a[0]] + a[1..]; }
        WithinKeeps(a[1..], b[1..], x);
      }
    } else {
      WithinKeeps(a, b[1..], x);
    }
  }

  // ----- the length of a line -----

  lemma {:induction false} InlineLength(p: bytes)
    ensures |SpansBytes(Inline(p))| <= 5 * |p| && (p != [] ==> SpansBytes(Inline(p)) != [])
    decreases |p|
  {
    hide SpansBytes, SpanBytes, First;
    NoSpans();
    if p != [] {
      var (sp, used) := First(p);
      var _, _ := FirstIsSlice(p);
      InlineLength(p[used..]);
      OneSpan(sp, Inline(p[used..]));
    }
  }

  lemma OneSpan(sp: Span, rest: seq<Span>)
    ensures SpansBytes([sp] + rest) == SpanBytes(sp) + SpansBytes(rest)
    ensures |SpanBytes(sp)| <= |sp.text| + (if sp.Plain? then 0 else if sp.style.Code? then 10 else 9)
    ensures sp.Styled? || sp.text != [] ==> SpanBytes(sp) != []
  {
    assert ([sp] + rest)[1..] == rest;
  }

  /** A line of `n` bytes comes out as at most 5n + 10, and as nothing only if it is empty. */
  lemma LineLength(p: bytes, inFence: bool)
    ensures |SpansBytes(StyleLine(p, inFence))| <= 5 * |p| + 10
    ensures p != [] ==> SpansBytes(StyleLine(p, inFence)) != []
  {
    hide Inline, IsFence, HeadingText, BlockPrefix, SpansBytes, SpanBytes;
    NoSpans();
    if IsFence(p) || inFence {
      OneSpan(Styled(if IsFence(p) then Dim else Code, p), []);
      assert [Styled(if IsFence(p) then Dim else Code, p)] + [] == StyleLine(p, inFence);
    } else if HeadingText(p).Some? {
      var sp := Styled(Bold, p[HeadingText(p).value..]);
      OneSpan(sp, []);
      assert [sp] + [] == StyleLine(p, inFence);
    } else {
      var prefix := BlockPrefix(p);
      InlineLength(p[prefix..]);
      if prefix > 0 {
        OneSpan(Plain(p[..prefix]), Inline(p[prefix..]));
      } else {
        assert [] + Inline(p[prefix..]) == Inline(p[prefix..]);
      }
    }
  }

  lemma NoSpans()
    ensures SpansBytes([]) == []
  {
  }

  // ----- whole streams -----

  /** Output that ends like this ends a line. */
  predicate AtLineStart(out: bytes) { out == [] || out[|out| - 1] == LF }

  /** Bytes of a line never end in a line feed. */
  lemma {:induction false} NoFeedInSpans(spans: seq<Span>)
    requires LF !in Texts(spans)
    ensures LF !in SpansBytes(spans)
  {
    hide SpanBytes;
    if spans != [] {
      assert forall b :: b in spans[0].text ==> b in Texts(spans);
      assert forall b :: b in Texts(spans[1..]) ==> b in Texts(spans);
      NoFeedInSpan(spans[0]);
      NoFeedInSpans(spans[1..]);
    }
  }

  lemma NoFeedInSpan(sp: Span)
    requires LF !in sp.text
    ensures LF !in SpanBytes(sp)
  {
  }

  lemma NoFeedInLine(p: bytes, inFence: bool)
    requires LF !in p
    ensures LF !in SpansBytes(StyleLine(p, inFence))
  {
    hide StyleLine, SpansBytes, Texts;
    LineText(p, inFence);
    if LF in Texts(StyleLine(p, inFence)) { WithinKeeps(Texts(StyleLine(p, inFence)), p, LF); }
    NoFeedInSpans(StyleLine(p, inFence));
  }

  /** What holds between bytes: the pending line, and that the flag says where the output ends. */
  predicate Sound(r: Render) {
    && LF !in r.line && |r.line| <= LINE_MAX && (r.overflowed ==> r.line == [])
    && (r.ended <==> AtLineStart(r.out)) && (r.overflowed ==> !r.ended)
  }

  lemma StepKeeps(r: Render, b: byte)
    requires Sound(r)
    ensures Sound(Step(r, b))
  {
    hide StyleLine, SpansBytes, IsFence;
  }

  lemma {:induction false} RunKeeps(r: Render, s: bytes)
    requires Sound(r)
    ensures Sound(Run(r, s))
    decreases |s|
  {
    hide Step, Sound;
    if s != [] {
      RunKeeps(r, s[..|s| - 1]);
      StepKeeps(Run(r, s[..|s| - 1]), s[|s| - 1]);
    }
  }

  lemma FlushKeeps(r: Render)
    requires Sound(r)
    ensures Sound(Flush(r))
  {
    hide StyleLine, SpansBytes, IsFence;
    if !r.overflowed && r.line != [] {
      LineLength(r.line, r.inFence);
      NoFeedInLine(r.line, r.inFence);
      var styled := SpansBytes(StyleLine(r.line, r.inFence));
      assert styled[|styled| - 1] in styled;
      assert (r.out + styled)[|r.out + styled| - 1] == styled[|styled| - 1];
    }
  }

  lemma InitIsSound()
    ensures Sound(INIT)
  {
  }

  /** What is done with a renderer: it is fed a piece of the model's output, and flushed when a turn ends. */
  datatype Call = Feed(input: bytes) | TurnEnds

  function AfterCall(r: Render, c: Call): Render {
    match c
    case Feed(input) => Run(r, input)
    case TurnEnds => Flush(r)
  }

  /** A renderer that serves turn after turn. */
  function AfterCalls(calls: seq<Call>): Render {
    if calls == [] then INIT else AfterCall(AfterCalls(calls[..|calls| - 1]), calls[|calls| - 1])
  }

  /** Everything it has been fed. */
  function Inputs(calls: seq<Call>): bytes {
    if calls == [] then []
    else Inputs(calls[..|calls| - 1]) + match calls[|calls| - 1] { case Feed(input) => input case TurnEnds => [] }
  }

  lemma {:induction false} CallsKeep(calls: seq<Call>)
    ensures Sound(AfterCalls(calls))
    decreases |calls|
  {
    hide Run, Flush, Sound;
    if calls == [] {
      InitIsSound();
    } else {
      var r := AfterCalls(calls[..|calls| - 1]);
      CallsKeep(calls[..|calls| - 1]);
      match calls[|calls| - 1]
      case Feed(input) => RunKeeps(r, input);
      case TurnEnds => FlushKeeps(r);
    }
  }

  /** After any turns: the flag is on exactly when the output is empty or ends a line. */
  lemma EndedNewlineIsExact(calls: seq<Call>)
    ensures AfterCalls(calls).ended <==> AtLineStart(AfterCalls(calls).out)
  {
    hide AfterCalls;
    CallsKeep(calls);
  }

  // ----- what the output shows -----

  lemma {:induction false} FeedsConcat(a: bytes, b: bytes)
    ensures LineFeeds(a + b) == LineFeeds(a) + LineFeeds(b)
    decreases |b|
  {
    if b == [] {
      assert a + b == a;
    } else {
      FeedsConcat(a, b[..|b| - 1]);
      assert (a + b)[..|a + b| - 1] == a + b[..|b| - 1];
    }
  }

  lemma {:induction false} NoFeeds(a: bytes)
    requires LF !in a
    ensures LineFeeds(a) == 0
    decreases |a|
  {
    if a != [] { NoFeeds(a[..|a| - 1]); }
  }

  lemma {:induction false} SpansConcat(a: seq<Span>, b: seq<Span>)
    ensures SpansBytes(a + b) == SpansBytes(a) + SpansBytes(b) && Texts(a + b) == Texts(a) + Texts(b)
    decreases |a|
  {
    hide SpanBytes;
    if a == [] {
      assert a + b == b;
    } else {
      assert (a + b)[1..] == a[1..] + b;
      SpansConcat(a[1..], b);
    }
  }

  lemma OnePlain(t: bytes)
    ensures SpansBytes([Plain(t)]) == t && Texts([Plain(t)]) == t
  {
    assert [Plain(t)][1..] == [];
    NoSpans();
    assert t + [] == t;
  }

  /** The spans that one byte adds to the output. */
  function StepSpans(r: Render, b: byte): seq<Span> {
    if b == LF then (if r.overflowed then [] else StyleLine(r.line, r.inFence)) + [Plain([LF])]
    else if r.overflowed then [Plain([b])]
    else if |r.line| < LINE_MAX then []
    else [Plain(r.line + [b])]
  }

  function RunSpans(r: Render, s: bytes): seq<Span>
    decreases |s|
  {
    if s == [] then [] else RunSpans(r, s[..|s| - 1]) + StepSpans(Run(r, s[..|s| - 1]), s[|s| - 1])
  }

  /** The spans that a flush adds. */
  function FlushSpans(r: Render): seq<Span> {
    if !r.overflowed && r.line != [] then StyleLine(r.line, r.inFence) else []
  }

  function CallSpans(calls: seq<Call>): seq<Span> {
    if calls == [] then []
    else
      var front := calls[..|calls| - 1];
      CallSpans(front)
      + match calls[|calls| - 1] {
          case Feed(input) => RunSpans(AfterCalls(front), input)
          case TurnEnds => FlushSpans(AfterCalls(front))
        }
  }

  /** One byte: the spans it adds, and the text that is then shown or pending. */
  lemma StepAdds(r: Render, b: byte)
    requires Sound(r)
    ensures var t := Texts(StepSpans(r, b));
      && Step(r, b).out == r.out + SpansBytes(StepSpans(r, b))
      && Within(t + Step(r, b).line, r.line + [b])
      && LineFeeds(t) == (if b == LF then 1 else 0)
  {
    hide StyleLine, SpansBytes, Texts, Within, IsFence;
    OnePlain([b]);
    OnePlain(r.line + [b]);
    NoSpans();
    NoFeeds(r.line);
    FeedsConcat(r.line, [b]);
    OneFeed(b);
    WithinSelf(r.line + [b]);
    assert r.line + [b] + [] == r.line + [b];
    assert r.out + (r.line + [b]) == r.out + r.line + [b];
    if b == LF {
      LineEnds(r);
    } else if r.overflowed {
      assert r.line + [b] == [b] && [b] + [] == [b];
    } else if |r.line| < LINE_MAX {
      EmptyTexts();
      assert [] + (r.line + [b]) == r.line + [b] && r.out + [] == r.out;
    }
  }

  lemma EmptyTexts()
    ensures Texts([]) == [] && LineFeeds([]) == 0
  {
  }

  lemma OneFeed(b: byte)
    ensures LineFeeds([b]) == if b == LF then 1 else 0
  {
    assert [b][..0] == [];
  }

  lemma LineEnds(r: Render)
    requires Sound(r)
    ensures var t := Texts(StepSpans(r, LF));
      && Step(r, LF).out == r.out + SpansBytes(StepSpans(r, LF))
      && Within(t, r.line + [LF]) && LineFeeds(t) == 1 && t + [] == t
  {
    hide StyleLine, SpansBytes, Texts, Within, IsFence;
    var line := if r.overflowed then [] else StyleLine(r.line, r.inFence);
    SpansConcat(line, [Plain([LF])]);
    OnePlain([LF]);
    NoSpans();
    EmptyTexts();
    Nothing();
    LineText(r.line, r.inFence);
    WithinBehind([], r.line, []);
    assert r.line + [] == r.line;
    WithinSelf([LF]);
    WithinConcat(Texts(line), [LF], r.line, [LF]);
    if LF in Texts(line) { WithinKeeps(Texts(line), r.line, LF); }
    NoFeeds(Texts(line));
    FeedsConcat(Texts(line), [LF]);
    OneFeed(LF);
    assert r.out + (SpansBytes(line) + [LF]) == r.out + SpansBytes(line) + [LF];
    assert r.out + ([] + [LF]) == r.out + [LF];
  }

  lemma {:induction false} RunShows(r: Render, s: bytes)
    requires Sound(r)
    ensures var e, t := Run(r, s), Texts(RunSpans(r, s));
      e.out == r.out + SpansBytes(RunSpans(r, s)) && Within(t + e.line, r.line + s) && LineFeeds(t) == LineFeeds(s)
    decreases |s|
  {
    hide Step, StepSpans, SpansBytes, Texts, Within, Sound;
    if s == [] {
      NoSpans();
      EmptyTexts();
      WithinSelf(r.line);
      assert [] + r.line == r.line == r.line + [] && r.out + [] == r.out;
    } else {
      var front, b := s[..|s| - 1], s[|s| - 1];
      var e, t := Run(r, front), Texts(RunSpans(r, front));
      RunShows(r, front);
      RunKeeps(r, front);
      StepAdds(e, b);
      var more := StepSpans(e, b);
      SpansConcat(RunSpans(r, front), more);
      FeedsConcat(t, Texts(more));
      OneFeed(b);
      FeedsConcat(front, [b]);
      // The pending line stands between what is shown and the new byte.
      Threaded(t, e.line, Texts(more) + Step(e, b).line, r.line + front, [b]);
      assert t + (Texts(more) + Step(e, b).line) == t + Texts(more) + Step(e, b).line;
      assert front + [b] == s && r.line + front + [b] == r.line + s;
      assert r.out + SpansBytes(RunSpans(r, front)) + SpansBytes(more)
        == r.out + (SpansBytes(RunSpans(r, front)) + SpansBytes(more));
    }
  }

  lemma FlushShows(r: Render)
    requires Sound(r)
    ensures var t := Texts(FlushSpans(r));
      && Flush(r).out == r.out + SpansBytes(FlushSpans(r)) && Flush(r).line == []
      && Within(t, r.line) && LineFeeds(t) == 0
  {
    hide StyleLine, SpansBytes, Texts, Within, IsFence;
    NoSpans();
    EmptyTexts();
    assert r.out + [] == r.out;
    Nothing();
    WithinBehind([], r.line, []);
    assert r.line + [] == r.line;
    if !r.overflowed && r.line != [] {
      var line := StyleLine(r.line, r.inFence);
      LineText(r.line, r.inFence);
      if LF in Texts(line) { WithinKeeps(Texts(line), r.line, LF); }
      NoFeeds(Texts(line));
    }
  }

  /** What has been put out, and with it what is pending, comes from the input. */
  lemma {:induction false} CallsShow(calls: seq<Call>)
    ensures var r, t, s := AfterCalls(calls), Texts(CallSpans(calls)), Inputs(calls);
      r.out == SpansBytes(CallSpans(calls)) && Within(t + r.line, s) && LineFeeds(t) == LineFeeds(s)
    decreases |calls|
  {
    hide Run, Flush, RunSpans, FlushSpans, SpansBytes, Texts, Within, Sound, LineFeeds;
    if calls == [] {
      NoSpans();
      EmptyTexts();
      WithinSelf([]);
      assert [] + INIT.line == [];
    } else {
      var front := calls[..|calls| - 1];
      var r, t, s := AfterCalls(front), Texts(CallSpans(front)), Inputs(front);
      CallsShow(front);
      CallsKeep(front);
      match calls[|calls| - 1] {
        case Feed(input) =>
          var more := RunSpans(r, input);
          RunShows(r, input);
          SpansConcat(CallSpans(front), more);
          FeedsConcat(t, Texts(more));
          FeedsConcat(s, input);
          Threaded(t, r.line, Texts(more) + Run(r, input).line, s, input);
          assert t + (Texts(more) + Run(r, input).line) == t + Texts(more) + Run(r, input).line;
        case TurnEnds =>
          var more := FlushSpans(r);
          FlushShows(r);
          SpansConcat(CallSpans(front), more);
          FeedsConcat(t, Texts(more));
          assert s + [] == s && r.line + [] == r.line;
          Threaded(t, r.line, Texts(more), s, []);
          assert t + Texts(more) + [] == t + Texts(more);
      }
    }
  }

  lemma {:induction false} WithinTransitive(a: bytes, b: bytes, c: bytes)
    requires Within(a, b) && Within(b, c)
    ensures Within(a, c)
    decreases |c|
  {
    if a != [] {
      if b[0] == c[0] && Within(b[1..], c[1..]) {
        if a[0] == b[0] && Within(a[1..], b[1..]) {
          WithinTransitive(a[1..], b[1..], c[1..]);
        } else {
          WithinTransitive(a, b[1..], c[1..]);
        }
      } else {
        WithinTransitive(a, b, c[1..]);
      }
    }
  }

  lemma Threaded(t: bytes, line: bytes, next: bytes, front: bytes, more: bytes)
    requires Within(t + line, front) && Within(next, line + more)
    ensures Within(t + next, front + more)
  {
    hide Within;
    WithinSelf(t);
    WithinSelf(more);
    WithinConcat(t, next, t, line + more);
    WithinConcat(t + line, more, front, more);
    assert t + (line + more) == (t + line) + more;
    WithinTransitive(t + next, t + (line + more), front + more);
  }

  /**
   After any turns whose input holds no escape characters: a terminal that shows the output has no style left on, and
   shows a part of the input with every line feed in its place.
   */
  lemma OutputShowsTheInput(calls: seq<Call>)
    requires ESC !in Inputs(calls)
    ensures var shown := Show(AfterCalls(calls).out, {});
      shown.open == {} && Within(shown.text, Inputs(calls)) && LineFeeds(shown.text) == LineFeeds(Inputs(calls))
  {
    hide AfterCalls, CallSpans, Inputs, SpansBytes, Texts, Within, Show;
    CallsShow(calls);
    Prefix(Texts(CallSpans(calls)), AfterCalls(calls).line, Inputs(calls));
    Shows(CallSpans(calls), Inputs(calls));
  }

  lemma Prefix(a: bytes, b: bytes, s: bytes)
    requires Within(a + b, s)
    ensures Within(a, s)
  {
    hide Within;
    WithinSelf(a);
    Nothing();
    EmptyTexts();
    WithinBehind([], b, []);
    assert b + [] == b && a + [] == a;
    WithinConcat(a, [], a, b);
    WithinTransitive(a, a + b, s);
  }

  lemma Shows(spans: seq<Span>, s: bytes)
    requires ESC !in s && Within(Texts(spans), s)
    ensures Show(SpansBytes(spans), {}) == Shown(Texts(spans), {})
  {
    hide SpansBytes, Texts, Within;
    if ESC in Texts(spans) { WithinKeeps(Texts(spans), s, ESC); }
    ShowSpans(spans, []);
    assert SpansBytes(spans) + [] == SpansBytes(spans) && Texts(spans) + [] == Texts(spans);
  }
}
