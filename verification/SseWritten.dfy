/**
 Event streams as servers write them, line by line, and what they mean: sections 9.2.5 and 9.2.6 of the HTML Standard,
 said of whole streams of lines instead of a state that is carried from one to the next.
 */
module SseWritten {
  import opened Bytes
  import opened SseSpec
  import opened SseLaws
  import opened Sse

  /** The names of the fields. */
  const NAME_DATA: bytes := Ascii("data")
  const NAME_TYPE: bytes := Ascii("event")
  const NAME_ID: bytes := Ascii("id")

  // ----- lines -----

  /** A line of a stream: blank, a comment, or a field in one of its spellings. */
  datatype Written =
    | Blank
    | Comment(text: bytes)
    | Spaced(name: bytes, value: bytes)
    | Tight(name: bytes, value: bytes)
    | Bare(name: bytes)

  function TextOf(w: Written): bytes {
    match w
    case Blank => []
    case Comment(text) => Ascii(":") + text
    case Spaced(name, value) => name + Ascii(": ") + value
    case Tight(name, value) => name + Ascii(":") + value
    case Bare(name) => name
  }

  predicate IsName(name: bytes) { name != [] && ':' as int !in name && OneLine(name) }

  predicate Well(w: Written) {
    match w
    case Blank => true
    case Comment(text) => OneLine(text)
    case Spaced(name, value) => IsName(name) && OneLine(value)
    case Tight(name, value) => IsName(name) && OneLine(value) && (value != [] ==> value[0] != ' ' as int)
    case Bare(name) => IsName(name)
  }

  predicate AllWell(ws: seq<Written>) { forall i :: 0 <= i < |ws| ==> Well(ws[i]) }

  /** Any text without a line terminator is such a line. */
  lemma EveryLineIsWritten(line: bytes) returns (w: Written)
    requires OneLine(line)
    ensures Well(w) && TextOf(w) == line
  {
    hide Ascii;
    Names();
    var c := Find(line, COLON);
    if line == [] {
      w := Blank;
    } else if c == 0 {
      w := Comment(line[1..]);
    } else if c == |line| {
      w := Bare(line);
    } else if c + 1 < |line| && line[c + 1] == SPACE {
      w := Spaced(line[..c], line[c + 2..]);
      assert line == line[..c] + [line[c], line[c + 1]] + line[c + 2..];
    } else {
      w := Tight(line[..c], line[c + 1..]);
      assert line == line[..c] + [line[c]] + line[c + 1..];
    }
  }

  predicate IsField(w: Written) { w.Spaced? || w.Tight? || w.Bare? }

  predicate Named(w: Written, name: bytes) { IsField(w) && w.name == name }

  function ValueOf(w: Written): bytes {
    match w
    case Spaced(_, value) => value
    case Tight(_, value) => value
    case _ => []
  }

  function Texts(ws: seq<Written>): (lines: seq<bytes>)
    ensures |lines| == |ws|
  {
    seq(|ws|, i requires 0 <= i < |ws| => TextOf(ws[i]))
  }

  // ----- what a stream means -----

  /** The lines behind the last blank one. */
  function Block(ws: seq<Written>): seq<Written> {
    if ws == [] || ws[|ws| - 1].Blank? then [] else Block(ws[..|ws| - 1]) + [ws[|ws| - 1]]
  }

  /** The values of the data fields, in order. */
  function DataIn(ws: seq<Written>): seq<bytes> {
    if ws == [] then []
    else DataIn(ws[..|ws| - 1]) + if Named(ws[|ws| - 1], NAME_DATA) then [ValueOf(ws[|ws| - 1])] else []
  }

  /** The value of the last event field. */
  function TypeIn(ws: seq<Written>): bytes {
    if ws == [] then []
    else if Named(ws[|ws| - 1], NAME_TYPE) then ValueOf(ws[|ws| - 1])
    else TypeIn(ws[..|ws| - 1])
  }

  /** The value of the last id field that holds no NUL. */
  function IdIn(ws: seq<Written>): bytes {
    if ws == [] then []
    else if Named(ws[|ws| - 1], NAME_ID) && NUL !in ValueOf(ws[|ws| - 1]) then ValueOf(ws[|ws| - 1])
    else IdIn(ws[..|ws| - 1])
  }

  /** The event that a blank line behind these lines sends. */
  function EventOf(ws: seq<Written>): Event {
    var kind := TypeIn(Block(ws));
    Event(if kind == [] then Ascii("message") else kind, Join(DataIn(Block(ws))), IdIn(ws))
  }

  /** One event per blank line that has data in front of it. */
  function EventsOf(ws: seq<Written>): seq<Event> {
    if ws == [] then []
    else
      var front := ws[..|ws| - 1];
      EventsOf(front) + if ws[|ws| - 1].Blank? && DataIn(Block(front)) != [] then [EventOf(front)] else []
  }

  /** What goes wrong at the line `w` behind these, if anything does. */
  function FailsAt(lim: Limits, cb: Callback, ws: seq<Written>, w: Written): Option<Failure> {
    if |TextOf(w)| > lim.maxLine then Some(LineTooLong)
    else if w.Blank? then
      if DataIn(Block(ws)) != [] && !cb(EventsOf(ws) + [EventOf(ws)]) then Some(Refused) else None
    else if Named(w, NAME_DATA) then
      if |Join(DataIn(Block(ws)) + [ValueOf(w)])| + 1 > lim.maxData then Some(DataTooLong) else None
    else if Named(w, NAME_TYPE) then if |ValueOf(w)| > lim.maxType then Some(TypeTooLong) else None
    else if Named(w, NAME_ID) && NUL !in ValueOf(w) then
      if |ValueOf(w)| > lim.maxId then Some(IdTooLong) else None
    else None
  }

  /** Whether reading goes on, or where and with what events it has stopped. */
  datatype Reading = Going | Ended(why: Failure, events: seq<Event>)

  function Read(lim: Limits, cb: Callback, ws: seq<Written>): Reading {
    if ws == [] then Going
    else
      var front := ws[..|ws| - 1];
      match Read(lim, cb, front)
      case Ended(why, events) => Ended(why, events)
      case Going =>
        match FailsAt(lim, cb, front, ws[|ws| - 1])
        case None => Going
        case Some(why) => Ended(why, EventsOf(if why == Refused then ws else front))
  }

  // ----- the decoder reads it so -----

  function PendingData(ws: seq<Written>): bytes {
    var data := DataIn(Block(ws));
    if data == [] then [] else Join(data) + [LF]
  }

  function StateAfter(lim: Limits, cb: Callback, ws: seq<Written>): Interp {
    match Read(lim, cb, ws)
    case Going => Running(PendingData(ws), TypeIn(Block(ws)), IdIn(ws), EventsOf(ws))
    case Ended(why, events) => Stopped(why, events)
  }

  lemma Names()
    ensures FIELD_DATA == NAME_DATA && FIELD_EVENT == NAME_TYPE && FIELD_ID == NAME_ID
    ensures DEFAULT_TYPE == Ascii("message") && Ascii(":") == [COLON] && Ascii(": ") == [COLON, SPACE]
  {
  }

  /** A field line's name and value. */
  lemma FieldReads(w: Written)
    requires Well(w) && IsField(w)
    ensures TextOf(w) != [] && TextOf(w)[0] != COLON && FieldName(TextOf(w)) == w.name
        && FieldValue(TextOf(w)) == ValueOf(w)
  {
    hide Ascii;
    Names();
    var line := TextOf(w);
    match w
    case Spaced(name, value) =>
      assert line == name + [COLON] + ([SPACE] + value);
      FindIn(name, [SPACE] + value, COLON);
      assert line[..|name|] == name && line[|name| + 1] == SPACE && line[|name| + 2..] == value;
    case Tight(name, value) =>
      assert line == name + [COLON] + value;
      FindIn(name, value, COLON);
      assert line[..|name|] == name && line[|name| + 1..] == value;
      if value != [] { assert line[|name| + 1] == value[0]; }
    case Bare(name) =>
      NoColon(name);
      assert line[..|name|] == name;
  }

  lemma {:induction false} NoColon(name: bytes)
    requires COLON !in name
    ensures Find(name, COLON) == |name|
  {
    if name != [] { NoColon(name[1..]); }
  }

  /** How one more line changes what the stream means so far. */
  lemma OneMore(ws: seq<Written>, w: Written)
    ensures var all := ws + [w];
      && Block(all) == (if w.Blank? then [] else Block(ws) + [w])
      && IdIn(all) == (if Named(w, NAME_ID) && NUL !in ValueOf(w) then ValueOf(w) else IdIn(ws))
      && EventsOf(all) == EventsOf(ws) + (if w.Blank? && DataIn(Block(ws)) != [] then [EventOf(ws)] else [])
      && DataIn(all) == DataIn(ws) + (if Named(w, NAME_DATA) then [ValueOf(w)] else [])
      && TypeIn(all) == (if Named(w, NAME_TYPE) then ValueOf(w) else TypeIn(ws))
  {
    hide Ascii, Join;
    assert (ws + [w])[..|ws + [w]| - 1] == ws;
  }

  lemma NothingRead()
    ensures DataIn([]) == [] && TypeIn([]) == [] && IdIn([]) == [] && EventsOf([]) == [] && Block([]) == []
  {
  }

  lemma ReadOn(lim: Limits, cb: Callback, ws: seq<Written>, w: Written)
    requires Read(lim, cb, ws).Going?
    ensures Read(lim, cb, ws + [w]) == match FailsAt(lim, cb, ws, w)
      case None => Going
      case Some(why) => Ended(why, EventsOf(if why == Refused then ws + [w] else ws))
  {
    hide FailsAt, EventsOf;
    assert (ws + [w])[..|ws + [w]| - 1] == ws;
  }

  lemma JoinMore(data: seq<bytes>, value: bytes)
    ensures Join(data + [value]) + [LF] == (if data == [] then [] else Join(data) + [LF]) + value + [LF]
  {
    var all := data + [value];
    assert all[..|all| - 1] == data;
  }

  lemma BlankReads(lim: Limits, cb: Callback, ws: seq<Written>)
    requires Read(lim, cb, ws).Going?
    ensures Line(lim, cb, StateAfter(lim, cb, ws), []) == StateAfter(lim, cb, ws + [Blank])
  {
    hide Ascii, Join, Read, Block, DataIn, TypeIn, IdIn, EventsOf, Field;
    Names();
    NothingRead();
    OneMore(ws, Blank);
    ReadOn(lim, cb, ws, Blank);
    var data := DataIn(Block(ws));
    if data != [] { assert (Join(data) + [LF])[..|Join(data)|] == Join(data); }
    assert EventsOf(ws) + [] == EventsOf(ws);
  }

  lemma CommentReads(lim: Limits, cb: Callback, ws: seq<Written>, w: Written)
    requires w.Comment? && Read(lim, cb, ws).Going?
    ensures Line(lim, cb, StateAfter(lim, cb, ws), TextOf(w)) == StateAfter(lim, cb, ws + [w])
  {
    hide Ascii, Join, Read, Block, DataIn, TypeIn, IdIn, EventsOf, EventOf, Field, ValueOf;
    Names();
    OneMore(ws, w);
    OneMore(Block(ws), w);
    ReadOn(lim, cb, ws, w);
    assert TextOf(w)[0] == COLON;
    assert EventsOf(ws) + [] == EventsOf(ws) && DataIn(Block(ws)) + [] == DataIn(Block(ws));
  }

  lemma DifferentNames()
    ensures NAME_DATA != NAME_TYPE && NAME_DATA != NAME_ID && NAME_TYPE != NAME_ID
  {
    assert NAME_DATA[0] != NAME_TYPE[0];
  }

  lemma FieldLineReadsSo(lim: Limits, cb: Callback, ws: seq<Written>, w: Written)
    requires Well(w) && IsField(w) && Read(lim, cb, ws).Going?
    ensures Line(lim, cb, StateAfter(lim, cb, ws), TextOf(w)) == StateAfter(lim, cb, ws + [w])
  {
    hide Ascii, Join, Read, Block, DataIn, TypeIn, IdIn, EventsOf, EventOf, ValueOf, FieldName, FieldValue, TextOf;
    Names();
    DifferentNames();
    OneMore(ws, w);
    OneMore(Block(ws), w);
    ReadOn(lim, cb, ws, w);
    FieldReads(w);
    JoinMore(DataIn(Block(ws)), ValueOf(w));
    assert EventsOf(ws) + [] == EventsOf(ws) && DataIn(Block(ws)) + [] == DataIn(Block(ws));
  }

  /** However long the stream, the decoder's state is what its lines mean. */
  lemma {:induction false} LinesMean(lim: Limits, cb: Callback, ws: seq<Written>)
    requires AllWell(ws)
    ensures Interpret(lim, cb, FRESH, Texts(ws)) == StateAfter(lim, cb, ws)
    decreases |ws|
  {
    hide StateAfter, Line, TextOf;
    if ws == [] {
      NothingYet(lim, cb);
    } else {
      var front, w := ws[..|ws| - 1], ws[|ws| - 1];
      LinesMean(lim, cb, front);
      assert Texts(ws)[..|ws| - 1] == Texts(front);
      assert ws == front + [w];
      if Read(lim, cb, front).Going? {
        match w
        case Blank => BlankReads(lim, cb, front); BlankIsEmpty();
        case Comment(_) => CommentReads(lim, cb, front, w);
        case _ => FieldLineReadsSo(lim, cb, front, w);
      } else {
        EndedStays(lim, cb, front, w);
      }
    }
  }

  lemma BlankIsEmpty()
    ensures TextOf(Blank) == []
  {
  }

  lemma NothingYet(lim: Limits, cb: Callback)
    ensures Interpret(lim, cb, FRESH, Texts([])) == StateAfter(lim, cb, [])
  {
    NothingRead();
  }

  lemma EndedStays(lim: Limits, cb: Callback, ws: seq<Written>, w: Written)
    requires Read(lim, cb, ws).Ended?
    ensures StateAfter(lim, cb, ws + [w]) == StateAfter(lim, cb, ws)
    ensures Line(lim, cb, StateAfter(lim, cb, ws), TextOf(w)) == StateAfter(lim, cb, ws)
  {
    hide FailsAt, EventsOf;
    assert (ws + [w])[..|ws + [w]| - 1] == ws;
  }

  // ----- streams -----

  /** Each line with its own terminator. */
  function Lined(lines: seq<bytes>, nls: seq<bytes>): bytes
    requires |nls| == |lines|
  {
    if lines == [] then [] else lines[0] + nls[0] + Lined(lines[1..], nls[1..])
  }

  /** Every line ends in CR, LF or CR LF, and no CR and the LF of an empty line behind it are taken for one end. */
  predicate Terminators(lines: seq<bytes>, nls: seq<bytes>) {
    && |nls| == |lines|
    && (forall i :: 0 <= i < |nls| ==> Newline(nls[i]))
    && forall i :: 0 < i < |nls| && lines[i] == [] && nls[i - 1] == [CR] ==> nls[i][0] == CR
  }

  lemma {:induction false} SplitWithRest(lines: seq<bytes>, nls: seq<bytes>, rest: bytes)
    requires Terminators(lines, nls) && OneLine(rest) && forall i :: 0 <= i < |lines| ==> OneLine(lines[i])
    ensures Split(Lined(lines, nls) + rest) == Lines(lines, rest)
    decreases |lines|
  {
    hide Split;
    if lines == [] {
      assert [] + rest == rest;
      NoLineEnds(rest);
    } else {
      var more := Lined(lines[1..], nls[1..]) + rest;
      SplitWithRest(lines[1..], nls[1..], rest);
      assert Lined(lines, nls) + rest == lines[0] + nls[0] + more;
      if more != [] && nls[0] == [CR] { FirstOfMore(lines[1..], nls[1..], rest); }
      SplitOneMore(lines[0], nls[0], more);
      assert [lines[0]] + lines[1..] == lines;
    }
  }

  lemma FirstOfMore(lines: seq<bytes>, nls: seq<bytes>, rest: bytes)
    requires Terminators(lines, nls) && OneLine(rest) && forall i :: 0 <= i < |lines| ==> OneLine(lines[i])
    requires Lined(lines, nls) + rest != [] && (lines != [] && lines[0] == [] ==> nls[0][0] == CR)
    ensures (Lined(lines, nls) + rest)[0] != LF
  {
    if lines == [] {
      assert (Lined(lines, nls) + rest)[0] == rest[0];
    } else if lines[0] != [] {
      assert (Lined(lines, nls) + rest)[0] == lines[0][0];
    } else {
      assert (Lined(lines, nls) + rest)[0] == nls[0][0];
    }
  }

  lemma {:induction false} NoLineEnds(rest: bytes)
    requires OneLine(rest)
    ensures Split(rest) == Lines([], rest)
  {
    NoTerminator(rest);
  }

  lemma {:induction false} NoTerminator(rest: bytes)
    requires OneLine(rest)
    ensures FindTerminator(rest) == |rest|
  {
    if rest != [] { NoTerminator(rest[1..]); }
  }

  lemma TextsAreLines(ws: seq<Written>)
    requires AllWell(ws)
    ensures forall i :: 0 <= i < |ws| ==> OneLine(Texts(ws)[i])
  {
    hide Ascii;
    Names();
  }

  /** The bytes of a stream: perhaps a mark, its lines, and what follows the last line terminator. */
  function Stream(mark: bool, ws: seq<Written>, nls: seq<bytes>, rest: bytes): bytes
    requires |nls| == |ws|
  {
    (if mark then BOM else []) + (Lined(Texts(ws), nls) + rest)
  }

  /** A stream without a mark does not look as if it had one. */
  predicate Unmarked(s: bytes) { !(BOM <= s) && (s != [] ==> !(s < BOM)) }

  /**
   Every stream of lines, whatever fields, comments and blank lines it holds and however it is cut: the events that it
   delivers, where and why reading stops, and the verdict at its end.
   */
  lemma StreamMeans(lim: Limits, cb: Callback, mark: bool, ws: seq<Written>, nls: seq<bytes>, rest: bytes,
      chunks: seq<bytes>)
    requires AllWell(ws) && Terminators(Texts(ws), nls) && OneLine(rest)
    requires Joined(chunks) == Stream(mark, ws, nls, rest)
    requires mark || Unmarked(Joined(chunks))
    ensures var st := RunChunks(lim, cb, chunks);
      match Read(lim, cb, ws)
      case Ended(why, events) => st == Dead(why, events)
      case Going =>
        if |rest| > lim.maxLine then st == Dead(LineTooLong, EventsOf(ws))
        else
          && st.Live? && StateEvents(st) == EventsOf(ws)
          && (Verdict(st) == Clean <==> !mark && rest == [] && DataIn(Block(ws)) == [])
  {
    hide RunChunks, Read, Block, DataIn, TypeIn, IdIn, EventsOf, Texts, Lined, Split, Interpret, Well, AllWell, OneLine,
        Newline, Terminators;
    TerminatorsFit(Texts(ws), nls);
    var s, body := Stream(mark, ws, nls, rest), Lined(Texts(ws), nls) + rest;
    ChunkingIsInvisible(lim, cb, chunks);
    TextsAreLines(ws);
    SplitWithRest(Texts(ws), nls, rest);
    LinesMean(lim, cb, ws);
    if mark { assert s[..3] == BOM && s[3..] == body; } else { assert s == body; }
    if s == [] { EmptyStream(lim, cb, ws, nls, rest); }
  }

  lemma TerminatorsFit(lines: seq<bytes>, nls: seq<bytes>)
    requires Terminators(lines, nls)
    ensures |nls| == |lines|
  {
  }

  lemma EmptyStream(lim: Limits, cb: Callback, ws: seq<Written>, nls: seq<bytes>, rest: bytes)
    requires Terminators(Texts(ws), nls) && Lined(Texts(ws), nls) + rest == []
    ensures ws == [] && rest == [] && Read(lim, cb, ws) == Going && EventsOf(ws) == [] && DataIn(Block(ws)) == []
  {
    NothingRead();
    LinedLonger(Texts(ws), nls);
  }

  lemma {:induction false} LinedLonger(lines: seq<bytes>, nls: seq<bytes>)
    requires Terminators(lines, nls)
    ensures |Lined(lines, nls)| >= |lines|
  {
    if lines != [] { LinedLonger(lines[1..], nls[1..]); }
  }

  // ----- what does not matter -----

  /** A comment, or a field that no reader knows. */
  predicate Ignored(w: Written) {
    || w.Comment?
    || (IsField(w) && w.name != NAME_DATA && w.name != NAME_TYPE && w.name != NAME_ID)
    || (Named(w, NAME_ID) && NUL in ValueOf(w))
  }

  function Strip(ws: seq<Written>): seq<Written> {
    if ws == [] then [] else Strip(ws[..|ws| - 1]) + if Ignored(ws[|ws| - 1]) then [] else [ws[|ws| - 1]]
  }

  /** What is ignored fits a line. */
  predicate IgnoredFit(lim: Limits, ws: seq<Written>) {
    forall i :: 0 <= i < |ws| && Ignored(ws[i]) ==> |TextOf(ws[i])| <= lim.maxLine
  }

  lemma {:induction false} StripMeans(ws: seq<Written>)
    ensures DataIn(Block(Strip(ws))) == DataIn(Block(ws)) && TypeIn(Block(Strip(ws))) == TypeIn(Block(ws))
    ensures IdIn(Strip(ws)) == IdIn(ws) && EventsOf(Strip(ws)) == EventsOf(ws)
    decreases |ws|
  {
    hide Ascii, Block, DataIn, TypeIn, IdIn, EventsOf, Join, ValueOf;
    NothingRead();
    if ws != [] {
      var front, w := ws[..|ws| - 1], ws[|ws| - 1];
      assert ws == front + [w];
      StripMeans(front);
      OneMore(front, w);
      OneMore(Block(front), w);
      OneMore(Strip(front), w);
      OneMore(Block(Strip(front)), w);
      assert EventsOf(front) + [] == EventsOf(front) && DataIn(Block(front)) + [] == DataIn(Block(front));
      assert Strip(front) + [] == Strip(front);
    }
  }

  /** What has been read says what a line comes to. */
  lemma FailsAlike(lim: Limits, cb: Callback, a: seq<Written>, b: seq<Written>, w: Written)
    requires DataIn(Block(a)) == DataIn(Block(b)) && TypeIn(Block(a)) == TypeIn(Block(b))
    requires IdIn(a) == IdIn(b) && EventsOf(a) == EventsOf(b)
    ensures FailsAt(lim, cb, a, w) == FailsAt(lim, cb, b, w)
  {
    hide Ascii, Block, DataIn, TypeIn, IdIn, EventsOf, Join, ValueOf, TextOf;
  }

  lemma IgnoredGoesOn(lim: Limits, cb: Callback, ws: seq<Written>, w: Written)
    requires Ignored(w) && |TextOf(w)| <= lim.maxLine
    ensures FailsAt(lim, cb, ws, w) == None
  {
    hide Ascii, Block, DataIn, TypeIn, IdIn, EventsOf, Join, ValueOf, TextOf;
    DifferentNames();
  }

  lemma ReadEnded(lim: Limits, cb: Callback, ws: seq<Written>, w: Written)
    requires Read(lim, cb, ws).Ended?
    ensures Read(lim, cb, ws + [w]) == Read(lim, cb, ws)
  {
    hide FailsAt, EventsOf;
    assert (ws + [w])[..|ws + [w]| - 1] == ws;
  }

  lemma {:induction false} StripReads(lim: Limits, cb: Callback, ws: seq<Written>)
    requires IgnoredFit(lim, ws)
    ensures Read(lim, cb, Strip(ws)) == Read(lim, cb, ws)
    decreases |ws|
  {
    hide Ascii, Block, DataIn, TypeIn, IdIn, EventsOf, Join, ValueOf, TextOf, Read, FailsAt, Ignored;
    if ws != [] {
      var front, w := ws[..|ws| - 1], ws[|ws| - 1];
      assert ws == front + [w];
      var kept := Strip(front);
      StripReads(lim, cb, front);
      StripMeans(front);
      StripMeans(ws);
      assert kept + [] == kept;
      if Read(lim, cb, front).Ended? {
        ReadEnded(lim, cb, front, w);
        ReadEnded(lim, cb, kept, w);
      } else {
        ReadOn(lim, cb, front, w);
        ReadOn(lim, cb, kept, w);
        FailsAlike(lim, cb, front, kept, w);
        if Ignored(w) { IgnoredGoesOn(lim, cb, front, w); }
      }
    }
  }

  /**
   Comments and unknown fields, anywhere in a stream, however many: the events, the failure and the verdict are those
   of the stream without them.
   */
  lemma IgnoredLinesAreInvisible(lim: Limits, cb: Callback, mark: bool, ws: seq<Written>, nls: seq<bytes>,
      kept: seq<bytes>, rest: bytes, a: seq<bytes>, b: seq<bytes>)
    requires AllWell(ws) && IgnoredFit(lim, ws) && OneLine(rest)
    requires Terminators(Texts(ws), nls) && Terminators(Texts(Strip(ws)), kept)
    requires Joined(a) == Stream(mark, ws, nls, rest) && Joined(b) == Stream(mark, Strip(ws), kept, rest)
    requires mark || (Unmarked(Joined(a)) && Unmarked(Joined(b)))
    ensures var x, y := RunChunks(lim, cb, a), RunChunks(lim, cb, b);
      && StateEvents(x) == StateEvents(y) && Verdict(x) == Verdict(y)
      && (x.Dead? <==> y.Dead?) && (x.Dead? ==> x.why == y.why)
  {
    hide RunChunks, Read, Block, DataIn, TypeIn, IdIn, EventsOf, Stream, Strip, AllWell, IgnoredFit, Joined, Unmarked,
        Terminators, OneLine;
    StripIsWell(ws);
    StripMeans(ws);
    StripReads(lim, cb, ws);
    StreamMeans(lim, cb, mark, ws, nls, rest, a);
    StreamMeans(lim, cb, mark, Strip(ws), kept, rest, b);
    VerdictValues(RunChunks(lim, cb, a), RunChunks(lim, cb, b));
  }

  lemma VerdictValues(x: State, y: State)
    ensures (Verdict(x) == Clean <==> Verdict(y) == Clean) ==> Verdict(x) == Verdict(y)
    ensures x.Dead? ==> Verdict(x) == Truncated && StateEvents(x) == x.events
    ensures y.Dead? ==> Verdict(y) == Truncated && StateEvents(y) == y.events
  {
  }

  lemma {:induction false} StripIsWell(ws: seq<Written>)
    requires AllWell(ws)
    ensures AllWell(Strip(ws))
    decreases |ws|
  {
    hide Well, Ignored;
    if ws != [] { StripIsWell(ws[..|ws| - 1]); }
  }
}
