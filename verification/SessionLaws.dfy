/**
 What the session log promises: loading does not depend on chunking, and a crash loses at most the message in flight.
 */
module SessionLaws {
  import opened Bytes
  import opened CJsonSpec
  import opened CJsonLaws
  import opened SessionSpec

  // ----- loading -----

  lemma {:induction false} RunConcat(l: Loading, a: bytes, b: bytes)
    ensures Run(l, a + b) == Run(Run(l, a), b)
    decreases |b|
  {
    hide Step;
    if b == [] {
      assert a + b == a;
    } else {
      RunConcat(l, a, b[..|b| - 1]);
      assert (a + b)[..|a + b| - 1] == a + b[..|b| - 1];
    }
  }

  lemma {:induction false} FailedStays(e: LoadError, more: bytes)
    ensures Run(Failed(e), more) == Failed(e)
  {
    if more != [] { FailedStays(e, more[..|more| - 1]); }
  }

  /** Bytes of a line that fits are only collected. */
  lemma {:induction false} RunPlain(scan: Scan, line: bytes, t: bytes)
    requires LF !in t && |line| <= MAX_LINE
    ensures Run(Reading(scan, line), t)
            == if |line| + |t| <= MAX_LINE then Reading(scan, line + t) else Failed(LineTooLong(scan.lineNo + 1))
    decreases |t|
  {
    if t == [] {
      assert line + t == line;
    } else {
      var front := t[..|t| - 1];
      RunPlain(scan, line, front);
      assert t[|t| - 1] in t;
      if |line| + |front| <= MAX_LINE { assert line + t == line + front + [t[|t| - 1]]; }
    }
  }

  /** A whole line of a fitting length is consumed. */
  lemma RunLine(scan: Scan, line: bytes, t: bytes)
    requires LF !in t && |line| + |t| <= MAX_LINE
    ensures Run(Reading(scan, line), t + [LF])
            == match ConsumeLine(scan, line + t) { case Ok(s) => Reading(s, []) case Err(e) => Failed(e) }
  {
    hide ConsumeLine;
    RunPlain(scan, line, t);
    var whole := t + [LF];
    assert whole[..|whole| - 1] == t && whole[|whole| - 1] == LF;
    RunOne(Reading(scan, line), whole);
  }

  lemma RunOne(l: Loading, t: bytes)
    requires t != []
    ensures Run(l, t) == Step(Run(l, t[..|t| - 1]), t[|t| - 1])
  {
  }

  /** A file read in whatever pieces the kernel returns loads like the whole file. */
  lemma {:induction false} ChunkingIsInvisible(l: Loading, chunks: seq<bytes>)
    ensures RunChunks(l, chunks) == Run(l, Joined(chunks))
    decreases |chunks|
  {
    if chunks != [] {
      ChunkingIsInvisible(l, chunks[..|chunks| - 1]);
      RunConcat(l, Joined(chunks[..|chunks| - 1]), chunks[|chunks| - 1]);
    }
  }

  function RunChunks(l: Loading, chunks: seq<bytes>): Loading
    decreases |chunks|
  {
    if chunks == [] then l else Run(RunChunks(l, chunks[..|chunks| - 1]), chunks[|chunks| - 1])
  }

  /** The reference: a file of whole lines is its lines, consumed one after the other. */
  function ConsumeAll(scan: Scan, lines: seq<bytes>): Outcome<Scan>
    decreases |lines|
  {
    if lines == [] then Ok(scan)
    else match ConsumeLine(scan, lines[0])
      case Err(e) => Err(e)
      case Ok(s) => ConsumeAll(s, lines[1..])
  }

  function Lines(lines: seq<bytes>): bytes {
    if lines == [] then [] else lines[0] + [LF] + Lines(lines[1..])
  }

  predicate AreLines(lines: seq<bytes>) {
    lines == [] || (LF !in lines[0] && |lines[0]| <= MAX_LINE && AreLines(lines[1..]))
  }

  lemma {:induction false} LoadIsItsLines(scan: Scan, lines: seq<bytes>)
    requires AreLines(lines)
    ensures Run(Reading(scan, []), Lines(lines))
            == match ConsumeAll(scan, lines) { case Ok(s) => Reading(s, []) case Err(e) => Failed(e) }
    decreases |lines|
  {
    hide ConsumeLine, Step;
    if lines != [] {
      var rest := Lines(lines[1..]);
      RunConcat(Reading(scan, []), lines[0] + [LF], rest);
      RunLine(scan, [], lines[0]);
      assert [] + lines[0] == lines[0];
      match ConsumeLine(scan, lines[0])
      case Ok(s) => LoadIsItsLines(s, lines[1..]);
      case Err(e) => FailedStays(e, rest);
    }
  }

  // ----- the first line -----

  /** The bytes up to the first line feed. */
  function FirstLine(file: bytes): bytes { file[..Find(file, LF)] }

  /** The file starts with a version-1 session header with this id. */
  predicate HasHeader(file: bytes, id: bytes) {
    var doc := ParseDocument(FirstLine(file), MAX_LINE);
    id != [] && doc.Some? && ConsumeHeader(Scan(1, 0, [], []), doc.value) == Ok(Scan(1, 0, [], id))
  }

  /** What a scan knows of the first line: nothing yet, or its header, or that it was blank. */
  predicate FirstLineRead(file: bytes, scan: Scan, line: bytes) {
    if scan.lineNo == 0 then scan == Scan(0, 0, [], []) && line == file && LF !in file
    else file != [] && if file[0] == LF then scan.id == [] else HasHeader(file, scan.id)
  }

  /** Consuming a line leaves the id alone, unless it is the first line and not blank. */
  lemma ConsumedId(scan: Scan, line: bytes)
    requires ConsumeLine(scan, line).Ok?
    ensures var s := ConsumeLine(scan, line).value;
      && s.lineNo == scan.lineNo + 1 && (scan.lineNo > 0 || line == [] ==> s.id == scan.id)
      && (scan == Scan(0, 0, [], []) && line != [] ==>
            var doc := ParseDocument(line, MAX_LINE);
            s.id != [] && doc.Some? && ConsumeHeader(Scan(1, 0, [], []), doc.value) == Ok(Scan(1, 0, [], s.id)))
  {
    hide ParseDocument, GetString, IsMessage, IsControl;
  }

  lemma FirstLineEnds(file: bytes, rest: bytes)
    requires LF !in file
    ensures FirstLine(file) == file && FirstLine(file + [LF] + rest) == file
  {
    var whole := file + [LF] + rest;
    assert forall j :: 0 <= j < |file| ==> file[j] in file && file[j] != LF;
    assert Find(file, LF) == |file|;
    assert whole[|file|] == LF && forall j :: 0 <= j < |file| ==> whole[j] == file[j] && file[j] in file;
  }

  lemma FirstLineStays(file: bytes, b: byte)
    requires LF in file
    ensures FirstLine(file + [b]) == FirstLine(file)
  {
    var i :| 0 <= i < |file| && file[i] == LF;
    assert (file + [b])[..|file|] == file && Find(file, LF) <= i && Find(file + [b], LF) <= i;
    assert (file + [b])[Find(file, LF)] == LF && (file + [b])[Find(file + [b], LF)] == file[Find(file + [b], LF)];
  }

  lemma {:induction false} HeaderFollowed(file: bytes)
    ensures var l := Run(START, file);
      l.Reading? ==> FirstLineRead(file, l.scan, l.line) && (l.scan.lineNo > 0 ==> LF in file)
    decreases |file|
  {
    hide ConsumeLine, HasHeader, FirstLine;
    if file != [] {
      var front, b := file[..|file| - 1], file[|file| - 1];
      HeaderFollowed(front);
      var l := Run(START, front);
      assert file == front + [b] && b in file;
      if l.Reading? && Run(START, file).Reading? {
        if l.scan.lineNo > 0 {
          HeaderStays(front, b, l.scan.id);
          if b == LF { ConsumedId(l.scan, l.line); }
        } else if b == LF {
          ConsumedId(l.scan, front);
          HeaderRead(front, l.scan);
        }
      }
    }
  }

  lemma HeaderStays(file: bytes, b: byte, id: bytes)
    requires LF in file
    ensures HasHeader(file + [b], id) <==> HasHeader(file, id)
  {
    hide ConsumeHeader, ParseDocument, FirstLine;
    FirstLineStays(file, b);
  }

  lemma HeaderRead(front: bytes, scan: Scan)
    requires LF !in front && scan == Scan(0, 0, [], []) && ConsumeLine(scan, front).Ok?
    ensures FirstLineRead(front + [LF], ConsumeLine(scan, front).value, [])
    ensures front != [] ==> FirstLineRead(front, ConsumeLine(scan, front).value, [])
  {
    hide ConsumeLine, ConsumeHeader, ParseDocument, FirstLine;
    ConsumedId(scan, front);
    FirstLineEnds(front, []);
    assert front + [LF] + [] == front + [LF];
    if front != [] { assert front[0] in front; }
  }

  // ----- one append and a crash inside it -----

  /** Loading the file gives exactly the session in memory, with no bad line pending. */
  predicate InSync(log: Log) {
    match Load(log.file)
    case Err(_) => false
    case Ok(l) => l.scan.staged == 0 && l.scan.messages == log.messages && l.needsHeal == log.needsHeal
  }

  lemma ConsumedCounts(l: Loading)
    ensures l.Reading? && ConsumeLine(l.scan, l.line).Ok? ==>
        ConsumeLine(l.scan, l.line).value.lineNo == l.scan.lineNo + 1
  {
    hide ParseDocument, GetString, IsMessage, IsControl;
  }

  function Heal(log: Log): bytes { if log.needsHeal then [LF] else [] }

  /** After the healing line feed the file stands at the start of a line behind the first. */
  lemma Healed(log: Log) returns (scan: Scan)
    requires InSync(log)
    ensures Run(START, log.file + Heal(log)) == Reading(scan, [])
    ensures scan.staged == 0 && scan.messages == log.messages && scan.lineNo > 0
  {
    hide ConsumeLine, Run, HasHeader;
    scan := Load(log.file).value.scan;
    var l := Run(START, log.file);
    HeaderFollowed(log.file);
    ConsumedCounts(l);
    if log.needsHeal {
      var whole := log.file + [LF];
      assert whole[..|whole| - 1] == log.file;
      RunOne(START, whole);
    } else {
      assert log.file + [] == log.file;
    }
  }

  /** Where a load stands when it has read the file, the healing line feed and `t`, a piece of one line. */
  lemma AfterPiece(log: Log, t: bytes) returns (scan: Scan)
    requires InSync(log) && LF !in t && |t| <= MAX_LINE
    ensures Run(START, log.file + (Heal(log) + t)) == Reading(scan, t)
    ensures Run(START, log.file + (Heal(log) + t + [LF]))
            == match ConsumeLine(scan, t) { case Ok(s) => Reading(s, []) case Err(e) => Failed(e) }
    ensures scan.staged == 0 && scan.messages == log.messages && scan.lineNo > 0
  {
    hide ConsumeLine, Run, Load;
    scan := Healed(log);
    var front := log.file + Heal(log);
    assert log.file + (Heal(log) + t) == front + t;
    assert log.file + (Heal(log) + t + [LF]) == front + (t + [LF]);
    RunConcat(START, front, t);
    RunConcat(START, front, t + [LF]);
    RunPlain(scan, [], t);
    RunLine(scan, [], t);
    assert [] + t == t;
  }

  /** What a line of the log means to a scan that is past the header and has no bad line pending. */
  function LineEffect(scan: Scan, line: bytes): Outcome<Scan>
    requires scan.staged == 0 && scan.lineNo > 0
  {
    var s := scan.(lineNo := scan.lineNo + 1);
    if line == [] then Ok(s)
    else match ParseDocument(line, MAX_LINE)
      case None => Ok(s.(staged := s.lineNo))
      case Some(v) =>
        if !IsMessage(v) then Ok(if IsControl(v) then s else s.(staged := s.lineNo))
        else if |s.messages| >= MAX_MESSAGES then Err(TooManyMessages)
        else Ok(s.(messages := s.messages + [v]))
  }

  lemma LineMeans(scan: Scan, line: bytes)
    requires scan.staged == 0 && scan.lineNo > 0
    ensures ConsumeLine(scan, line) == LineEffect(scan, line)
  {
    hide ParseDocument, GetString, IsMessage, IsControl;
  }

  /**
   A message that printing and parsing carry over; its numbers are 32-bit integers, as in every message written here.
   */
  predicate Carried(msg: Json) {
    Storable(msg) && NoReals(msg) && Nesting(msg) <= NESTING_LIMIT && |Print(msg, false, 0)| + 2 <= INT_MAX
  }

  /**
   A crash after any byte of an append's write: the file loads to the conversation without the message or
   with it, and with it exactly when at most its line feed is missing.
   */
  lemma CrashInsideAppend(log: Log, msg: Json, k: nat)
    requires InSync(log) && Accepts(log, msg) && Carried(msg) && k <= |Record(log, PrintedLine(msg))|
    ensures var record := Record(log, PrintedLine(msg));
            var loaded := Load(log.file + record[..k]);
            loaded.Ok? && loaded.value.scan.messages == log.messages + if k + 1 >= |record| then [msg] else []
  {
    hide Run, ConsumeLine, Print, Storable, Nesting, NoReals, GetString;
    var line := PrintedLine(msg);
    var record := Record(log, line);
    var h := |Heal(log)|;
    UnformattedIsOneLine(msg);
    LineNotEmpty(msg);
    if k < h {
      assert record[..k] == [] && log.file + [] == log.file;
    } else if k < |record| {
      var t := line[..k - h];
      assert record[..k] == Heal(log) + t;
      var scan := AfterPiece(log, t);
      LineMeans(scan, t);
      if k + 1 == |record| {
        assert t == line;
        PrintedTextReadsBack(msg, false, MAX_LINE);
      } else {
        PrefixOfPrintedFails(msg, false, k - h, MAX_LINE);
      }
      FileGrew(log, Heal(log) + t);
    } else {
      assert record[..k] == Heal(log) + line + [LF];
      var scan := AfterPiece(log, line);
      LineMeans(scan, line);
      PrintedTextReadsBack(msg, false, MAX_LINE);
    }
  }

  lemma LineNotEmpty(msg: Json)
    requires IsMessage(msg) && |Print(msg, false, 0)| + 2 <= INT_MAX
    ensures msg.Object?
    ensures PrintedLine(msg) == Print(msg, false, 0) && PrintedLine(msg) != []
  {
    ContainerStart(msg, false, 0);
  }

  lemma FileGrew(log: Log, t: bytes)
    requires InSync(log)
    ensures log.file + t != []
  {
  }

  /** An append that the disk took whole leaves file and memory in step exactly when the message can be carried over. */
  lemma AppendStaysInSync(log: Log, msg: Json)
    requires InSync(log) && Accepts(log, msg) && Storable(msg) && NoReals(msg)
    ensures var (after, ok) := Append(log, msg, |Record(log, PrintedLine(msg))|);
            && ok && after.messages == log.messages + [msg] && !after.needsHeal && !after.poisoned
            && (InSync(after) <==> Carried(msg))
  {
    hide Run, ConsumeLine, Print, Storable, Nesting, NoReals, GetString;
    var line := PrintedLine(msg);
    var after := Append(log, msg, |Record(log, line)|).0;
    assert after.file == log.file + (Heal(log) + line + [LF]);
    UnformattedIsOneLine(msg);
    var scan := AfterPiece(log, line);
    LineMeans(scan, line);
    if |Print(msg, false, 0)| + 2 <= INT_MAX {
      LineNotEmpty(msg);
      PrintedTextParsesIff(msg, false, MAX_LINE);
    }
  }

  // ----- whole runs -----

  /** One append of a run: the message, and how many bytes its write takes, -1 for an error. */
  datatype Op = Op(msg: Json, written: int)

  predicate Possible(log: Log, op: Op) {
    Accepts(log, op.msg) ==> -1 <= op.written <= |Record(log, PrintedLine(op.msg))|
  }

  predicate PossibleRun(log: Log, ops: seq<Op>)
    decreases |ops|
  {
    ops == [] || (Possible(log, ops[0]) && PossibleRun(Append(log, ops[0].msg, ops[0].written).0, ops[1..]))
  }

  function AfterRun(log: Log, ops: seq<Op>): Log
    requires PossibleRun(log, ops)
    decreases |ops|
  {
    if ops == [] then log else AfterRun(Append(log, ops[0].msg, ops[0].written).0, ops[1..])
  }

  /** The messages whose append was acknowledged. */
  function Acknowledged(log: Log, ops: seq<Op>): seq<Json>
    requires PossibleRun(log, ops)
    decreases |ops|
  {
    if ops == [] then []
    else
      var (after, ok) := Append(log, ops[0].msg, ops[0].written);
      (if ok then [ops[0].msg] else []) + Acknowledged(after, ops[1..])
  }

  /** The message whose write fell short, if its record lacks at most the final line feed on disk. */
  function Landed(log: Log, ops: seq<Op>): seq<Json>
    requires PossibleRun(log, ops)
    decreases |ops|
  {
    if ops == [] || log.poisoned then []
    else
      var (after, ok) := Append(log, ops[0].msg, ops[0].written);
      if Accepts(log, ops[0].msg) && !ok && ops[0].written + 1 == |Record(log, PrintedLine(ops[0].msg))|
      then [ops[0].msg]
      else Landed(after, ops[1..])
  }

  predicate AllCarried(ops: seq<Op>) {
    forall i :: 0 <= i < |ops| ==> Carried(ops[i].msg)
  }

  /** A poisoned session never writes and never grows again. */
  lemma {:induction false} PoisonBlocks(log: Log, ops: seq<Op>)
    requires log.poisoned && PossibleRun(log, ops)
    ensures AfterRun(log, ops) == log && Acknowledged(log, ops) == [] && Landed(log, ops) == []
    decreases |ops|
  {
    if ops != [] { PoisonBlocks(log, ops[1..]); }
  }

  /** How one possible append leaves the disk. */
  lemma AppendLoads(log: Log, op: Op)
    requires InSync(log) && !log.poisoned && Possible(log, op) && Carried(op.msg)
    ensures var (after, ok) := Append(log, op.msg, op.written);
            var loaded := Load(after.file);
            && (!after.poisoned ==> InSync(after))
            && (after.poisoned ==> !ok && Accepts(log, op.msg))
            && loaded.Ok?
            && after.messages == log.messages + (if ok then [op.msg] else [])
            && loaded.value.scan.messages == after.messages + Landed(log, [op])
  {
    hide Run, ConsumeLine, Print, Storable, Nesting, NoReals, GetString, Load, PrintedLine;
    var after := Append(log, op.msg, op.written).0;
    OneLanded(log, op);
    SyncLoads(log);
    if Accepts(log, op.msg) {
      var record := Record(log, PrintedLine(op.msg));
      if op.written == |record| {
        AppendStaysInSync(log, op.msg);
        SyncLoads(after);
      } else {
        LineNotEmpty(op.msg);
        CrashInsideAppend(log, op.msg, if op.written < 0 then 0 else op.written);
        assert record[..0] == [];
      }
    } else {
      assert log.messages + [] == log.messages;
    }
  }

  lemma SyncLoads(log: Log)
    ensures InSync(log) ==> Load(log.file).Ok? && Load(log.file).value.scan.messages == log.messages
  {
  }

  lemma OneLanded(log: Log, op: Op)
    requires Possible(log, op)
    ensures PossibleRun(log, [op])
    ensures Landed(log, [op])
            == if Accepts(log, op.msg) && op.written + 1 == |Record(log, PrintedLine(op.msg))| then [op.msg] else []
  {
    var after := Append(log, op.msg, op.written).0;
    assert PossibleRun(after, [op][1..]) && Landed(after, [op][1..]) == [];
  }

  /**
   Whatever was appended, and wherever the last write stopped: the file loads to exactly the acknowledged
   messages, or to those and the one in flight.
   */
  lemma {:induction false} NothingAcknowledgedIsLost(log: Log, ops: seq<Op>)
    requires InSync(log) && !log.poisoned && PossibleRun(log, ops) && AllCarried(ops)
    ensures var loaded := Load(AfterRun(log, ops).file);
            loaded.Ok? && loaded.value.scan.messages == log.messages + Acknowledged(log, ops) + Landed(log, ops)
    ensures !AfterRun(log, ops).poisoned ==> InSync(AfterRun(log, ops)) && Landed(log, ops) == []
    ensures |Landed(log, ops)| <= 1
    decreases |ops|
  {
    hide Load, Append, Accepts, InSync, Carried;
    if ops == [] {
      SyncLoads(log);
      assert log.messages + [] + [] == log.messages;
    } else {
      var op := ops[0];
      var (after, ok) := Append(log, op.msg, op.written);
      AppendLoads(log, op);
      RunStep(log, ops);
      if after.poisoned {
        PoisonBlocks(after, ops[1..]);
        assert log.messages + ([] + []) == log.messages;
      } else {
        NothingAcknowledgedIsLost(after, ops[1..]);
        var first := if ok then [op.msg] else [];
        assert log.messages + first + Acknowledged(after, ops[1..])
            == log.messages + (first + Acknowledged(after, ops[1..]));
      }
    }
  }

  lemma RunStep(log: Log, ops: seq<Op>)
    requires ops != [] && !log.poisoned && PossibleRun(log, ops)
    ensures PossibleRun(log, [ops[0]])
    ensures var (after, ok) := Append(log, ops[0].msg, ops[0].written);
            && PossibleRun(after, ops[1..])
            && AfterRun(log, ops) == AfterRun(after, ops[1..])
            && Acknowledged(log, ops) == (if ok then [ops[0].msg] else []) + Acknowledged(after, ops[1..])
            && (after.poisoned ==> Landed(after, ops[1..]) == [])
            && Landed(log, ops) == (if Landed(log, [ops[0]]) != [] then [ops[0].msg] else Landed(after, ops[1..]))
            && (Landed(log, [ops[0]]) != [] ==> after.poisoned && Landed(log, [ops[0]]) == [ops[0].msg])
  {
    hide PrintedLine;
    OneLanded(log, ops[0]);
    var after := Append(log, ops[0].msg, ops[0].written).0;
    if after.poisoned { PoisonBlocks(after, ops[1..]); }
  }

  // ----- torn tails, and files that start with a blank line -----

  /** A load that finds a bad last line. */
  predicate Torn(file: bytes) {
    match Load(file)
    case Err(_) => false
    case Ok(l) => l.scan.staged != 0
  }

  /**
   A session reopened on a bad last line accepts appends, but once one of them has reached the disk every
   later load fails, naming the bad line, whatever is appended after it.
   */
  lemma AppendAfterTornTailIsFatal(file: bytes, msg: Json, more: bytes)
    requires Torn(file) && Reopened(file).Some? && Accepts(Reopened(file).value, msg)
    requires Storable(msg) && |Print(msg, false, 0)| + 2 <= INT_MAX
    ensures var log := Reopened(file).value;
            var (after, ok) := Append(log, msg, |Record(log, PrintedLine(msg))|);
            ok && Load(after.file + more) == Err(CorruptLine(Load(file).value.scan.staged))
  {
    hide Run, ConsumeLine, Print, Storable, GetString;
    var log, line := Reopened(file).value, PrintedLine(msg);
    var scan := Load(file).value.scan;
    UnformattedIsOneLine(msg);
    LineNotEmpty(msg);
    var front := file + Heal(log);
    assert Run(START, front) == Reading(scan, []) by { TornHealed(file); }
    assert Append(log, msg, |Record(log, line)|).0.file + more == front + ((line + [LF]) + more);
    RunConcat(START, front, (line + [LF]) + more);
    RunConcat(Reading(scan, []), line + [LF], more);
    RunLine(scan, [], line);
    assert [] + line == line;
    StagedIsFatal(scan, line);
    FailedStays(CorruptLine(scan.staged), more);
  }

  lemma StagedIsFatal(scan: Scan, line: bytes)
    requires scan.staged != 0 && line != []
    ensures ConsumeLine(scan, line) == Err(CorruptLine(scan.staged))
  {
  }

  lemma TornHealed(file: bytes)
    requires Reopened(file).Some?
    ensures Run(START, file + Heal(Reopened(file).value)) == Reading(Load(file).value.scan, [])
  {
    hide Run, ConsumeLine;
    var whole := file + [LF];
    assert whole[..|whole| - 1] == file;
    RunOne(START, whole);
    assert file + [] == file;
  }

  /** Only a bad last line makes a later load fail: reopened on any other file, appends stay loadable. */
  lemma ReopenedIsInSync(file: bytes)
    requires Reopened(file).Some?
    ensures InSync(Reopened(file).value) <==> !Torn(file)
  {
    hide Run, ConsumeLine, Finish;
  }

  /** session_new: the header alone loads as an empty conversation with that id. */
  lemma HeaderLoads(id: bytes, created: Json)
    requires IsCString(id) && 0 < |id| <= ID_LENGTH
    requires (created.Integer? || created.Real?) && Storable(created)
        && |Print(Header(id, created), false, 0)| <= MAX_LINE
    ensures var file := Print(Header(id, created), false, 0) + [LF];
            Load(file) == Ok(Loaded(Scan(1, 0, [], id), false)) && InSync(Log(file, [], false, false))
  {
    hide Run, Print, ConsumeLine;
    var header := Header(id, created);
    var line := Print(header, false, 0);
    HeaderFits(id, created);
    PrintedTextReadsBack(header, false, MAX_LINE);
    UnformattedIsOneLine(header);
    RunLine(Scan(0, 0, [], []), [], line);
    assert [] + line == line;
    HeaderConsumed(id, created, line);
  }

  lemma HeaderFits(id: bytes, created: Json)
    requires IsCString(id) && (created.Integer? || created.Real?) && Storable(created)
    ensures Storable(Header(id, created)) && Nesting(Header(id, created)) <= NESTING_LIMIT
  {
    hide IsRealText;
    var ms := Header(id, created).members;
    var none: seq<Member> := [];
    PlainMember(ms[3], none);
    assert ms[3..] == [ms[3]] + none;
    PlainMember(ms[2], ms[3..]);
    assert ms[2..] == [ms[2]] + ms[3..];
    PlainMember(ms[1], ms[2..]);
    assert ms[1..] == [ms[1]] + ms[2..];
    PlainMember(ms[0], ms[1..]);
    assert ms == [ms[0]] + ms[1..];
  }

  lemma PlainMember(m: Member, rest: seq<Member>)
    requires IsCString(m.key) && Storable(m.value) && Nesting(m.value) == 0
    requires StorableMembers(rest) && NestingMembers(rest) == 0
    ensures StorableMembers([m] + rest) && NestingMembers([m] + rest) == 0
  {
    hide Storable, Nesting;
    assert ([m] + rest)[1..] == rest;
  }

  lemma HeaderConsumed(id: bytes, created: Json, line: bytes)
    requires 0 < |id| <= ID_LENGTH && line != [] && ParseDocument(line, MAX_LINE) == Some(Header(id, created))
    ensures ConsumeLine(Scan(0, 0, [], []), line) == Ok(Scan(1, 0, [], id))
  {
    hide ParseDocument;
    var ms := Header(id, created).members;
    assert Lookup(ms, KEY_TYPE) == Some(String(TEXT_SESSION));
    assert Lookup(ms[1..], KEY_VERSION) == Some(Integer(1));
    assert Lookup(ms[2..], KEY_ID) == Some(String(id));
    assert Lookup(ms[1..], KEY_ID) == Some(String(id));
  }

  /**
   Every file that loads either has a session header on its first line, and the id of that header, or starts with a
   blank line, and no id: exactly then its header has not been checked.
   */
  lemma HeaderCheckedIff(file: bytes)
    requires Load(file).Ok?
    ensures Load(file).value.scan.id == [] <==> file[0] == LF
    ensures file[0] != LF ==> HasHeader(file, Load(file).value.scan.id)
  {
    hide Run, ConsumeLine, HasHeader;
    HeaderFollowed(file);
    var l := Run(START, file);
    if l.line != [] {
      ConsumedId(l.scan, l.line);
      if l.scan.lineNo == 0 { HeaderRead(file, l.scan); }
    }
    IdNotEmpty(file, Load(file).value.scan.id);
  }

  lemma IdNotEmpty(file: bytes, id: bytes)
    ensures HasHeader(file, id) ==> id != []
  {
    hide ConsumeHeader, ParseDocument;
  }

  /** The input: a message alone is refused unless it happens to be a header, and loads behind a blank line. */
  lemma BlankFirstLineHidesTheHeader(msg: Json)
    requires IsMessage(msg) && Carried(msg) && |Print(msg, false, 0)| <= MAX_LINE
    ensures Load([LF] + Print(msg, false, 0) + [LF]) == Ok(Loaded(Scan(2, 0, [msg], []), false))
    ensures Load(Print(msg, false, 0) + [LF])
            == match ConsumeHeader(Scan(1, 0, [], []), msg) { case Ok(s) => Ok(Loaded(s, false)) case Err(e) => Err(e) }
  {
    hide Run, Print, ConsumeLine, Storable, Nesting, GetString, ConsumeHeader, ParseDocument;
    var line, blank := Print(msg, false, 0), Scan(1, 0, [], []);
    LineNotEmpty(msg);
    UnformattedIsOneLine(msg);
    PrintedTextReadsBack(msg, false, MAX_LINE);
    assert [LF] + line + [LF] == [LF] + (line + [LF]);
    RunConcat(START, [LF], line + [LF]);
    RunLine(Scan(0, 0, [], []), [], []);
    var none: bytes := [];
    assert none + [LF] == [LF] && none + none == none;
    BlankLine(Scan(0, 0, [], []));
    RunLine(blank, [], line);
    RunLine(Scan(0, 0, [], []), [], line);
    assert [] + line == line;
    LineMeans(blank, line);
    assert [] + [msg] == [msg];
    FirstLineMeans(line);
  }

  lemma BlankLine(scan: Scan)
    ensures ConsumeLine(scan, []) == Ok(scan.(lineNo := scan.lineNo + 1))
  {
  }

  lemma FirstLineMeans(line: bytes)
    requires line != []
    ensures var doc := ParseDocument(line, MAX_LINE);
            ConsumeLine(Scan(0, 0, [], []), line)
            == if doc.None? then Err(NotAHeader) else ConsumeHeader(Scan(1, 0, [], []), doc.value)
  {
    hide ParseDocument, GetString;
  }
}
