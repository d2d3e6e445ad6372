/** The session objects of src/mua/session.c. */
module Session {
  import opened Bytes
  import opened CJsonSpec
  import opened CJsonLaws
  import opened SessionSpec
  import opened SessionLaws
  import opened Memory
  import CJson
  import CJsonPrint

  /** LoadScan, with the fields of the session it fills. */
  class LoadScan {
    var lineNo: nat
    var staged: nat
    var messages: seq<Json>
    var count: nat
    var id: bytes

    predicate Valid()
      reads this
    {
      count == |messages|
    }

    function Abs(): Scan
      reads this
    {
      Scan(lineNo, staged, messages, id)
    }

    constructor ()
      ensures Valid() && Abs() == Scan(0, 0, [], [])
    {
      lineNo, staged, messages, count, id := 0, 0, [], 0, [];
    }

    /** consume_header. */
    method ConsumeHeader(node: Json) returns (error: Option<LoadError>)
      requires Valid()
      modifies this`id
      ensures match SessionSpec.ConsumeHeader(old(Abs()), node)
              case Ok(s) => error.None? && Abs() == s
              case Err(e) => error == Some(e)
    {
      var kind := GetString(node, KEY_TYPE);
      var newId := GetString(node, KEY_ID);
      var version := if node.Object? then Lookup(node.members, KEY_VERSION) else None;
      if kind != Some(TEXT_SESSION) || version.None? || (!version.value.Integer? && !version.value.Real?)
         || newId.None? || newId.value == [] || |newId.value| > ID_LENGTH {
        return Some(NotAHeader);
      }
      if !ReadsAsOne(version.value) {
        return Some(UnsupportedVersion(version.value));
      }
      id := newId.value;
      error := None;
    }

    /** consume_line. */
    method ConsumeLine(line: bytes) returns (error: Option<LoadError>)
      requires Valid()
      modifies this
      ensures Valid()
      ensures match SessionSpec.ConsumeLine(old(Abs()), line)
              case Ok(s) => error.None? && Abs() == s
              case Err(e) => error == Some(e)
    {
      hide ParseDocument, SessionSpec.ConsumeHeader, GetString;
      lineNo := lineNo + 1;
      if |line| == 0 { return None; }
      if staged != 0 { return Some(CorruptLine(staged)); }
      var node := CJson.ParseText(line, MAX_LINE);
      if lineNo == 1 {
        if node.None? { return Some(NotAHeader); }
        error := ConsumeHeader(node.value);
        return;
      }
      if node.None? || !node.value.Object? {
        if node.Some? { NotAnObject(node.value); }
        staged := lineNo;
        return None;
      }
      var role := GetString(node.value, KEY_ROLE);
      if role.Some? {
        if count >= MAX_MESSAGES { return Some(TooManyMessages); }
        messages := messages + [node.value];
        count := count + 1;
        return None;
      }
      var kind := GetString(node.value, KEY_TYPE);
      if kind.Some? { return None; }
      staged := lineNo;
      error := None;
    }
  }

  lemma NotAnObject(v: Json)
    requires !v.Object?
    ensures !IsMessage(v) && !IsControl(v)
  {
  }

  ghost function State(ls: LoadScan, line: Buf): Loading
    requires line.Valid()
    reads ls, line
  {
    Reading(ls.Abs(), line.Contents())
  }

  /** The inner loop of load_scan: the lines of one chunk; what is left of the last one stays in `line`. */
  method ScanChunk(chunk: bytes, ls: LoadScan, line: Buf) returns (error: Option<LoadError>)
    requires ls.Valid() && line.Valid() && line.max == MAX_LINE
    modifies ls, line
    ensures ls.Valid() && line.Valid()
    ensures error == match Run(old(State(ls, line)), chunk) { case Failed(e) => Some(e) case Reading(_, _) => None }
    ensures error.None? ==> State(ls, line) == Run(old(State(ls, line)), chunk)
  {
    hide Run, SessionSpec.ConsumeLine;
    ghost var start := State(ls, line);
    var cursor := 0;
    RunNothing(start);
    assert chunk[..0] == [];
    while cursor < |chunk|
      invariant cursor <= |chunk|
      invariant ls.Valid() && line.Valid()
      invariant State(ls, line) == Run(start, chunk[..cursor])
    {
      ghost var scan, held := ls.Abs(), line.Contents();
      var seg := Find(chunk[cursor..], LF);
      var found := cursor + seg < |chunk|;
      var piece := chunk[cursor..cursor + seg];
      Segment(start, chunk, cursor, seg, scan, held);
      var fits := line.Append(piece);
      if !fits { return Some(LineTooLong(ls.lineNo + 1)); }
      if !found {
        assert cursor + seg == |chunk| && chunk[..|chunk|] == chunk;
        return None;
      }
      error := ls.ConsumeLine(line.Contents());
      if error.Some? { return; }
      line.Reset();
      cursor := cursor + seg + 1;
    }
    assert chunk[..cursor] == chunk;
    error := None;
  }

  lemma RunNothing(l: Loading)
    ensures Run(l, []) == l
  {
  }

  /** What one turn of the loop makes of the next `seg` bytes and the line feed behind them, if there is one. */
  lemma Segment(start: Loading, chunk: bytes, cursor: nat, seg: nat, scan: Scan, held: bytes)
    requires cursor <= |chunk| && seg == Find(chunk[cursor..], LF)
    requires Run(start, chunk[..cursor]) == Reading(scan, held) && |held| <= MAX_LINE
    ensures var line := held + chunk[cursor..cursor + seg];
            if |line| > MAX_LINE then Run(start, chunk) == Failed(LineTooLong(scan.lineNo + 1))
            else if cursor + seg == |chunk| then Run(start, chunk) == Reading(scan, line)
            else match SessionSpec.ConsumeLine(scan, line)
              case Ok(s) => Run(start, chunk[..cursor + seg + 1]) == Reading(s, [])
              case Err(e) => Run(start, chunk) == Failed(e)
  {
    hide Run, SessionSpec.ConsumeLine, Find;
    var piece := chunk[cursor..cursor + seg];
    var line := held + piece;
    PieceEnds(chunk, cursor, seg);
    RunPlain(scan, held, piece);
    Advance(start, chunk, cursor, cursor + seg, Reading(scan, held));
    if |line| > MAX_LINE {
      ThenFails(start, chunk, cursor + seg, LineTooLong(scan.lineNo + 1));
    } else if cursor + seg == |chunk| {
      assert chunk[..cursor + seg] == chunk;
    } else {
      var end := cursor + seg + 1;
      RunLine(scan, held, piece);
      Advance(start, chunk, cursor, end, Reading(scan, held));
      match SessionSpec.ConsumeLine(scan, line)
      case Ok(_) =>
      case Err(e) => ThenFails(start, chunk, end, e);
    }
  }

  lemma PieceEnds(chunk: bytes, cursor: nat, seg: nat)
    requires cursor <= |chunk| && seg == Find(chunk[cursor..], LF)
    ensures cursor + seg <= |chunk| && LF !in chunk[cursor..cursor + seg]
    ensures cursor + seg < |chunk| ==> chunk[cursor..cursor + seg + 1] == chunk[cursor..cursor + seg] + [LF]
  {
    var rest := chunk[cursor..];
    assert rest[..seg] == chunk[cursor..cursor + seg];
    if seg < |rest| { assert rest[seg] == chunk[cursor + seg] == LF; }
  }

  lemma Advance(start: Loading, chunk: bytes, i: nat, j: nat, at: Loading)
    requires i <= j <= |chunk| && Run(start, chunk[..i]) == at
    ensures Run(start, chunk[..j]) == Run(at, chunk[i..j])
  {
    hide Run;
    RunConcat(start, chunk[..i], chunk[i..j]);
    assert chunk[..i] + chunk[i..j] == chunk[..j];
  }

  lemma ThenFails(start: Loading, chunk: bytes, i: nat, e: LoadError)
    requires i <= |chunk| && Run(start, chunk[..i]) == Failed(e)
    ensures Run(start, chunk) == Failed(e)
  {
    hide Run;
    RunConcat(start, chunk[..i], chunk[i..]);
    assert chunk[..i] + chunk[i..] == chunk;
    FailedStays(e, chunk[i..]);
  }

  /** load_scan: `chunks` are what successive reads return. */
  method ScanAll(chunks: seq<bytes>, ls: LoadScan, line: Buf) returns (error: Option<LoadError>)
    requires ls.Valid() && line.Valid() && line.max == MAX_LINE
    modifies ls, line
    ensures ls.Valid() && line.Valid()
    ensures var end := Run(old(State(ls, line)), Joined(chunks));
            error == (match end { case Failed(e) => Some(e) case Reading(_, _) => None })
            && (error.None? ==> State(ls, line) == end)
  {
    hide Run;
    ghost var start := State(ls, line);
    RunNothing(start);
    var i := 0;
    while i < |chunks|
      invariant i <= |chunks| && ls.Valid() && line.Valid()
      invariant State(ls, line) == RunChunks(start, chunks[..i])
    {
      error := ScanChunk(chunks[i], ls, line);
      assert chunks[..i + 1][..i] == chunks[..i];
      if error.Some? {
        ChunkFailed(start, chunks, i + 1, error.value);
        return;
      }
      i := i + 1;
    }
    assert chunks[..i] == chunks;
    ChunkingIsInvisible(start, chunks);
    error := None;
  }

  lemma {:induction false} ChunkFailed(start: Loading, chunks: seq<bytes>, i: nat, e: LoadError)
    requires i <= |chunks| && RunChunks(start, chunks[..i]) == Failed(e)
    ensures Run(start, Joined(chunks)) == Failed(e)
    decreases |chunks|
  {
    if i == |chunks| {
      assert chunks[..i] == chunks;
      ChunkingIsInvisible(start, chunks);
    } else {
      var front := chunks[..|chunks| - 1];
      assert front[..i] == chunks[..i];
      ChunkFailed(start, front, i, e);
      RunConcat(start, Joined(front), chunks[|chunks| - 1]);
      FailedStays(e, chunks[|chunks| - 1]);
    }
  }

  /** SessionState.  `file` is the content of the file its descriptor appends to. */
  class SessionState {
    var file: bytes
    var messages: seq<Json>
    var count: nat
    var poisoned: bool
    var needsHeal: bool
    var id: bytes

    predicate Valid()
      reads this
    {
      count == |messages|
    }

    function Abs(): Log
      reads this
    {
      Log(file, messages, poisoned, needsHeal)
    }

    constructor (file: bytes, ls: LoadScan, needsHeal: bool)
      requires ls.Valid()
      ensures Valid() && Abs() == Log(file, ls.messages, false, needsHeal) && id == ls.id
    {
      this.file, this.needsHeal, poisoned := file, needsHeal, false;
      messages, count, id := ls.messages, ls.count, ls.id;
    }

    /** write_line: one write(2) for the whole record, of which the kernel takes `written` bytes. */
    method WriteLine(line: bytes, written: int) returns (ok: bool)
      requires Valid() && -1 <= written <= |Record(Abs(), line)|
      modifies this`file, this`poisoned, this`needsHeal
      ensures (Abs(), ok) == SessionSpec.WriteLine(old(Abs()), line, written)
    {
      var total := |line| + 1 + (if needsHeal then 1 else 0);
      var buf := (if needsHeal then [LF] else []) + line + [LF];
      if written > 0 {
        file := file + buf[..written];
      }
      if written < 0 || written != total {
        poisoned := true;
        if written <= 0 { assert old(file) + buf[..0] == old(file); }
        return false;
      }
      assert buf[..written] == buf;
      needsHeal := false;
      ok := true;
    }

    /** session_append; a NULL message is None. */
    method Append(msg: Option<Json>, written: int) returns (ok: bool)
      requires Valid() && (msg.Some? ==> Storable(msg.value))
      requires msg.Some? && Accepts(Abs(), msg.value) ==> -1 <= written <= |Record(Abs(), PrintedLine(msg.value))|
      modifies this
      ensures Valid()
      ensures if msg.None? then Abs() == old(Abs()) && !ok
              else (Abs(), ok) == SessionSpec.Append(old(Abs()), msg.value, written)
      ensures id == old(id)
    {
      hide Print, Storable, GetString;
      if msg.None? { return false; }
      if !msg.value.Object? {
        NotAnObject(msg.value);
        return false;
      }
      var role := GetString(msg.value, KEY_ROLE);
      if role.None? { return false; }
      if poisoned { return false; }
      if count >= MAX_MESSAGES { return false; }
      var printed := CJsonPrint.PrintJson(msg.value, false);
      var line := if printed.Some? then printed.value else [];
      if |line| > MAX_LINE { return false; }
      ok := WriteLine(line, written);
      if !ok { return; }
      messages := messages + [msg.value];
      count := count + 1;
    }
  }

  /** session_load: `size` is what fstat says, `chunks` what the reads then return. */
  method LoadSession(size: nat, chunks: seq<bytes>) returns (sess: SessionState?, error: Option<LoadError>)
    ensures match if size == 0 then Err(EmptyFile) else Finish(Run(START, Joined(chunks)))
            case Err(e) => error == Some(e) && sess == null
            case Ok(l) =>
              && error == None && sess != null && sess.Valid()
              && sess.Abs() == Log(Joined(chunks), l.scan.messages, false, l.needsHeal) && sess.id == l.scan.id
  {
    hide Run, SessionSpec.ConsumeLine;
    if size == 0 { return null, Some(EmptyFile); }
    var ls := new LoadScan();
    var line := new Buf(MAX_LINE);
    error := ScanAll(chunks, ls, line);
    if error.Some? { return null, error; }
    var needsHeal := false;
    if line.size > 0 {
      needsHeal := true;
      error := ls.ConsumeLine(line.Contents());
      if error.Some? { return null, error; }
    }
    sess := new SessionState(Joined(chunks), ls, needsHeal);
  }
}
