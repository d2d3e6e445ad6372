/** The byte machine of SseSpec composes, and it agrees with the document reading on every stream. */
module SseMachine {
  import opened Bytes
  import opened SseSpec

  // ----- the byte machine composes, so chunking cannot matter to it -----

  lemma {:induction false} RunConcat(lim: Limits, cb: Callback, st: State, s: bytes, t: bytes)
    requires Sound(lim, st)
    ensures Run(lim, cb, st, s + t) == Run(lim, cb, Run(lim, cb, st, s), t)
    decreases |s|
  {
    if s == [] {
      assert s + t == t;
    } else {
      assert (s + t)[1..] == s[1..] + t;
      RunConcat(lim, cb, Step(lim, cb, st, s[0]), s[1..], t);
    }
  }

  lemma {:induction false} DeadStays(lim: Limits, cb: Callback, st: State, s: bytes)
    requires st.Dead?
    ensures Run(lim, cb, st, s) == st
    decreases |s|
  {
    if s != [] {
      DeadStays(lim, cb, st, s[1..]);
    }
  }

  /** A run of content bytes lands in the line buffer, or passes its cap. */
  lemma {:induction false} RunContent(lim: Limits, cb: Callback, st: State, span: bytes)
    requires Sound(lim, st) && st.Live? && !st.inBom
    requires forall i :: 0 <= i < |span| ==> !IsTerminator(span[i])
    ensures Run(lim, cb, st, span) ==
            if span == [] then st
            else if |st.line| + |span| > lim.maxLine then Dead(LineTooLong, st.it.events)
            else st.(skipLf := false, line := st.line + span)
    decreases |span|
  {
    if span != [] {
      var next := Step(lim, cb, st, span[0]);
      if next.Dead? {
        DeadStays(lim, cb, next, span[1..]);
      } else {
        assert st.line + span == (st.line + [span[0]]) + span[1..];
        RunContent(lim, cb, next, span[1..]);
        if span[1..] == [] {
          assert st.line + span == st.line + [span[0]];
        }
      }
    }
  }

  /** A carriage return was just read: the next byte, when a line feed, belongs to it. */
  lemma RunAfterReturn(lim: Limits, cb: Callback, st: State, s: bytes)
    requires Sound(lim, st) && st.Live? && st.skipLf && s != []
    ensures Run(lim, cb, st, s) == Run(lim, cb, st.(skipLf := false), if s[0] == LF then s[1..] else s)
  {
    if s[0] != LF {
      assert Step(lim, cb, st, s[0]) == Step(lim, cb, st.(skipLf := false), s[0]);
    }
  }

  /** The first terminator of `s` ends the buffered line; the machine resumes after it. */
  lemma RunLine(lim: Limits, cb: Callback, st: State, s: bytes)
    requires Sound(lim, st) && st.Live? && !st.inBom && !st.skipLf && FindTerminator(s) < |s|
    ensures var i := FindTerminator(s);
            var line := st.line + s[..i];
            Run(lim, cb, st, s) ==
            if |line| > lim.maxLine then Dead(LineTooLong, st.it.events)
            else Run(lim, cb, Settle(st.bom, s[i] == CR, [], Line(lim, cb, st.it, line)), s[i + 1..])
  {
    var i := FindTerminator(s);
    var line := st.line + s[..i];
    assert s == s[..i] + s[i..];
    RunConcat(lim, cb, st, s[..i], s[i..]);
    RunContent(lim, cb, st, s[..i]);
    if |line| > lim.maxLine {
      DeadStays(lim, cb, Dead(LineTooLong, st.it.events), s[i..]);
    } else {
      assert s[..i] == [] ==> line == st.line;
      var full := st.(line := line);
      assert s[i..][0] == s[i] && s[i..][1..] == s[i + 1..];
      assert Step(lim, cb, full, s[i]) == Settle(st.bom, s[i] == CR, [], Line(lim, cb, st.it, line));
    }
  }

  /** A byte of the mark is swallowed; any other byte turns what was matched into content. */
  lemma RunBom(lim: Limits, cb: Callback, st: State, s: bytes)
    requires Sound(lim, st) && st.Live? && st.inBom && s != []
    ensures Run(lim, cb, st, s) ==
            if s[0] == BOM[st.bom] then Run(lim, cb, st.(bom := st.bom + 1, inBom := st.bom + 1 < 3), s[1..])
            else if st.bom > lim.maxLine then Dead(LineTooLong, st.it.events)
            else Run(lim, cb, st.(bom := 0, inBom := false, line := BOM[..st.bom]), s)
  {
    if s[0] != BOM[st.bom] {
      if st.bom > lim.maxLine {
        DeadStays(lim, cb, Dead(LineTooLong, st.it.events), s[1..]);
      } else {
        var content := st.(bom := 0, inBom := false, line := BOM[..st.bom]);
        assert Step(lim, cb, st, s[0]) == Step(lim, cb, content, s[0]);
      }
    }
  }

  // ----- the document read one byte further -----

  lemma {:induction false} FindTerminatorSnoc(s: bytes, b: byte)
    ensures FindTerminator(s + [b]) ==
            if FindTerminator(s) < |s| then FindTerminator(s) else if IsTerminator(b) then |s| else |s| + 1
  {
    if s != [] {
      assert (s + [b])[1..] == s[1..] + [b];
      FindTerminatorSnoc(s[1..], b);
    }
  }

  /** Where the line after the first terminator starts. */
  function NextLine(s: bytes): (n: nat)
    requires FindTerminator(s) < |s|
    ensures FindTerminator(s) < n <= |s|
  {
    var i := FindTerminator(s);
    if s[i] == CR && i + 1 < |s| && s[i + 1] == LF then i + 2 else i + 1
  }

  lemma SplitNoTerminator(s: bytes, b: byte)
    requires FindTerminator(s) == |s|
    ensures Split(s) == Lines([], s)
    ensures Split(s + [b]) == if IsTerminator(b) then Lines([s], []) else Lines([], s + [b])
  {
    FindTerminatorSnoc(s, b);
    var t := s + [b];
    if IsTerminator(b) {
      assert t[..|s|] == s && t[|s| + 1..] == [];
      assert Split(t[|s| + 1..]) == Lines([], []);
    }
  }

  lemma {:induction false} SplitFirst(s: bytes)
    requires FindTerminator(s) < |s|
    ensures Split(s) == Prepend(s[..FindTerminator(s)], Split(s[NextLine(s)..]))
  {
  }

  function SnocLines(s: bytes, b: byte, lines: Lines): Lines {
    if EndsInCr(s) && b == LF then lines
    else if IsTerminator(b) then Lines(lines.complete + [lines.rest], [])
    else Lines(lines.complete, lines.rest + [b])
  }

  lemma {:induction false} SplitSnoc(s: bytes, b: byte)
    ensures Split(s + [b]) == SnocLines(s, b, Split(s))
    ensures EndsInCr(s) ==> Split(s).rest == []
    decreases |s|
  {
    if FindTerminator(s) == |s| {
      SplitNoTerminator(s, b);
      assert [] + [s] == [s];
    } else {
      SplitSnoc(s[NextLine(s)..], b);
      SplitFirst(s);
      if EndsInCr(s) && FindTerminator(s) + 1 == |s| && b == LF {
        SplitSnocJoined(s);
      } else {
        SplitSnocStep(s, b);
      }
    }
  }

  /** A line feed right after the last carriage return joins its terminator. */
  lemma {:induction false} SplitSnocJoined(s: bytes)
    requires EndsInCr(s) && FindTerminator(s) + 1 == |s|
    ensures Split(s + [LF]) == Split(s)
  {
    var t := s + [LF];
    FindTerminatorSnoc(s, LF);
    assert s[NextLine(s)..] == [] && t[NextLine(t)..] == [];
    assert s[..FindTerminator(s)] == t[..FindTerminator(t)];
    SplitFirst(s);
    SplitFirst(t);
  }

  lemma {:induction false} SplitSnocStep(s: bytes, b: byte)
    requires FindTerminator(s) < |s| && !(EndsInCr(s) && FindTerminator(s) + 1 == |s| && b == LF)
    requires var rest := s[NextLine(s)..]; Split(rest + [b]) == SnocLines(rest, b, Split(rest))
    ensures Split(s + [b]) == SnocLines(s, b, Split(s))
  {
    hide Split, SnocLines, FindTerminator;
    var t, rest := s + [b], s[NextLine(s)..];
    FindTerminatorSnoc(s, b);
    assert NextLine(t) == NextLine(s) && t[NextLine(t)..] == rest + [b];
    assert t[..FindTerminator(t)] == s[..FindTerminator(s)];
    SplitFirst(s);
    SplitFirst(t);
    if b == LF {
      EndsInCrRest(s);
    }
    PrependSnoc(s[..FindTerminator(s)], s, rest, b, Split(rest));
  }

  lemma EndsInCrRest(s: bytes)
    requires FindTerminator(s) < |s| && !(EndsInCr(s) && FindTerminator(s) + 1 == |s|)
    ensures EndsInCr(s) == EndsInCr(s[NextLine(s)..])
  {
    var n := NextLine(s);
    if n < |s| {
      assert s[n..][|s[n..]| - 1] == s[|s| - 1];
    }
  }

  lemma PrependSnoc(first: bytes, s: bytes, rest: bytes, b: byte, more: Lines)
    requires b == LF ==> EndsInCr(s) == EndsInCr(rest)
    ensures SnocLines(s, b, Prepend(first, more)) == Prepend(first, SnocLines(rest, b, more))
  {
    assert ([first] + more.complete) + [more.rest] == [first] + (more.complete + [more.rest]);
  }

  lemma InterpretSnoc(lim: Limits, cb: Callback, it: Interp, lines: seq<bytes>, line: bytes)
    ensures Interpret(lim, cb, it, lines + [line]) == Line(lim, cb, Interpret(lim, cb, it, lines), line)
  {
    assert (lines + [line])[..|lines|] == lines;
  }

  lemma BodySnoc(s: bytes, b: byte)
    requires !(s < BOM)
    ensures !(s + [b] < BOM)
    ensures BOM <= s + [b] <==> BOM <= s
    ensures Body(s + [b]) == Body(s) + [b]
  {
    var t := s + [b];
    if |s| < 3 {
      assert t[..|s|] == s;
    } else {
      assert s[..3] == t[..3];
    }
  }

  /** Reading the document one byte further is one step of the machine. */
  lemma DecodeSnoc(lim: Limits, cb: Callback, s: bytes, b: byte)
    requires Sound(lim, Decode(lim, cb, s))
    ensures Decode(lim, cb, s + [b]) == Step(lim, cb, Decode(lim, cb, s), b)
  {
    if s < BOM {
      DecodeSnocInBom(lim, cb, s, b);
    } else {
      BodySnoc(s, b);
      DecodeBodySnoc(lim, cb, Body(s), if BOM <= s then 3 else 0, b);
    }
  }

  lemma DecodeBodySnoc(lim: Limits, cb: Callback, body: bytes, bom: nat, b: byte)
    ensures var st := DecodeBody(lim, cb, body, bom);
            (st.Live? ==> !st.inBom) && DecodeBody(lim, cb, body + [b], bom) == Step(lim, cb, st, b)
  {
    var lines := Split(body);
    SplitSnoc(body, b);
    assert EndsInCr(body + [b]) == (b == CR);
    InterpretSnoc(lim, cb, FRESH, lines.complete, lines.rest);
  }

  /** While the stream is still a proper prefix of the mark, and the byte that decides. */
  lemma DecodeSnocInBom(lim: Limits, cb: Callback, s: bytes, b: byte)
    requires s < BOM
    ensures Decode(lim, cb, s + [b]) == Step(lim, cb, Decode(lim, cb, s), b)
  {
    var t := s + [b];
    if b == BOM[|s|] {
      assert t == BOM[..|s| + 1];
      if |s| == 2 {
        assert t == BOM && t[3..] == [];
      }
    } else {
      assert t[|s|] == b && !(t < BOM) && !(BOM <= t);
      SplitSnoc(s, b);
      FindTerminatorOfMark(s);
      assert Split(s) == Lines([], s);
      assert s == BOM[..|s|];
      InterpretSnoc(lim, cb, FRESH, [], s);
      assert [] + [s] == [s];
    }
  }

  lemma FindTerminatorOfMark(s: bytes)
    requires s <= BOM
    ensures FindTerminator(s) == |s|
  {
    forall i | 0 <= i < |s| ensures !IsTerminator(s[i]) {
      assert s[i] == BOM[i];
    }
  }

  lemma {:induction false} DecodeIsRun(lim: Limits, cb: Callback, s: bytes)
    ensures Sound(lim, START)
    ensures Decode(lim, cb, s) == Run(lim, cb, START, s)
  {
    if s == [] {
    } else {
      var init, b := s[..|s| - 1], s[|s| - 1];
      assert s == init + [b];
      DecodeIsRun(lim, cb, init);
      RunConcat(lim, cb, START, init, [b]);
      var mid := Run(lim, cb, START, init);
      assert Run(lim, cb, mid, [b]) == Run(lim, cb, Step(lim, cb, mid, b), []);
      DecodeSnoc(lim, cb, init, b);
    }
  }

  /** The document reading composes too: more input continues from the state reached. */
  lemma DecodeContinues(lim: Limits, cb: Callback, s: bytes, t: bytes)
    ensures Sound(lim, Decode(lim, cb, s))
    ensures Decode(lim, cb, s + t) == Run(lim, cb, Decode(lim, cb, s), t)
  {
    DecodeIsRun(lim, cb, s);
    DecodeIsRun(lim, cb, s + t);
    RunConcat(lim, cb, START, s, t);
  }
}
