/**
 The append-only session log of src/mua/session.c: what loading a file means, and what one append does to
 the file and to the conversation held in memory.
 */
module SessionSpec {
  import opened Bytes
  import opened CJsonSpec

  /** MUA_SESSION_MAX_LINE and MUA_SESSION_MAX_MESSAGES. */
  const MAX_LINE := 8388608
  const MAX_MESSAGES := 4096
  const ID_LENGTH := 18

  const KEY_TYPE: bytes := [116, 121, 112, 101]
  const KEY_ROLE: bytes := [114, 111, 108, 101]
  const KEY_ID: bytes := [105, 100]
  const KEY_VERSION: bytes := [118, 101, 114, 115, 105, 111, 110]
  const KEY_CREATED: bytes := [99, 114, 101, 97, 116, 101, 100]
  const TEXT_SESSION: bytes := [115, 101, 115, 115, 105, 111, 110]

  datatype LoadError =
    | EmptyFile
    | NotAHeader
    | UnsupportedVersion(version: Json)
    | CorruptLine(line: nat)
    | TooManyMessages
    | LineTooLong(line: nat)

  /** LoadScan and the part of the session it fills: `staged` is the number of a bad line, 0 for none. */
  datatype Scan = Scan(lineNo: nat, staged: nat, messages: seq<Json>, id: bytes)

  datatype Outcome<+T> = Ok(value: T) | Err(error: LoadError)

  /** A conversation message: an object with a string role. */
  predicate IsMessage(v: Json) { GetString(v, KEY_ROLE).Some? }

  /** An unknown control record: any other object with a string type. */
  predicate IsControl(v: Json) { GetString(v, KEY_TYPE).Some? }

  /** A number that json_get_int reads as 1. */
  predicate ReadsAsOne(v: Json) {
    match v
    case Integer(i) => i == 1
    case Real(text) => CutsToOne(text)
    case _ => false
  }

  /** consume_header: adopts the id of a version-1 session header. */
  function ConsumeHeader(s: Scan, node: Json): Outcome<Scan> {
    hide CutsToOne;
    var id := GetString(node, KEY_ID);
    var version := if node.Object? then Lookup(node.members, KEY_VERSION) else None;
    if GetString(node, KEY_TYPE) != Some(TEXT_SESSION) || id.None? || version.None?
       || (!version.value.Integer? && !version.value.Real?) || id.value == [] || |id.value| > ID_LENGTH
    then Err(NotAHeader)
    else if !ReadsAsOne(version.value) then Err(UnsupportedVersion(version.value))
    else Ok(s.(id := id.value))
  }

  /** consume_line. */
  function ConsumeLine(scan: Scan, line: bytes): Outcome<Scan> {
    var s := scan.(lineNo := scan.lineNo + 1);
    if line == [] then Ok(s)
    else if s.staged != 0 then Err(CorruptLine(s.staged))
    else
      match ParseDocument(line, MAX_LINE)
      case None => if s.lineNo == 1 then Err(NotAHeader) else Ok(s.(staged := s.lineNo))
      case Some(node) =>
        if s.lineNo == 1 then ConsumeHeader(s, node)
        else if IsMessage(node) then
          if |s.messages| >= MAX_MESSAGES then Err(TooManyMessages) else Ok(s.(messages := s.messages + [node]))
        else if IsControl(node) then Ok(s)
        else Ok(s.(staged := s.lineNo))
  }

  // ----- loading, a byte at a time -----

  /** The lines consumed so far and the bytes of the line being read; or the error that ended the load. */
  datatype Loading = Reading(scan: Scan, line: bytes) | Failed(error: LoadError)

  function Step(l: Loading, b: byte): Loading {
    match l
    case Failed(_) => l
    case Reading(scan, line) =>
      if b == LF then
        match ConsumeLine(scan, line)
        case Err(e) => Failed(e)
        case Ok(s) => Reading(s, [])
      else if |line| >= MAX_LINE then Failed(LineTooLong(scan.lineNo + 1))
      else Reading(scan, line + [b])
  }

  function Run(l: Loading, file: bytes): Loading {
    if file == [] then l else Step(Run(l, file[..|file| - 1]), file[|file| - 1])
  }

  const START: Loading := Reading(Scan(0, 0, [], []), [])

  /** A loaded session: the scan, and whether the file lacks its last line feed. */
  datatype Loaded = Loaded(scan: Scan, needsHeal: bool)

  function Finish(l: Loading): Outcome<Loaded> {
    match l
    case Failed(e) => Err(e)
    case Reading(scan, line) =>
      if line == [] then Ok(Loaded(scan, false))
      else match ConsumeLine(scan, line)
        case Err(e) => Err(e)
        case Ok(s) => Ok(Loaded(s, true))
  }

  /** session_load of a file with these bytes. */
  function Load(file: bytes): Outcome<Loaded> {
    if file == [] then Err(EmptyFile) else Finish(Run(START, file))
  }

  // ----- appending -----

  /** A session in memory and its file. */
  datatype Log = Log(file: bytes, messages: seq<Json>, poisoned: bool, needsHeal: bool)

  /** json_print: the unformatted text, or nothing when it cannot be printed. */
  function PrintedLine(v: Json): bytes {
    if |Print(v, false, 0)| + 2 <= INT_MAX then Print(v, false, 0) else []
  }

  /** The bytes of one write: a line feed to end a torn tail if there is one, the line and its line feed. */
  function Record(log: Log, line: bytes): bytes {
    (if log.needsHeal then [LF] else []) + line + [LF]
  }

  /** write_line, when write(2) takes `written` bytes; -1 is an error. */
  function WriteLine(log: Log, line: bytes, written: int): (Log, bool)
    requires -1 <= written <= |Record(log, line)|
  {
    var record := Record(log, line);
    if written == |record| then (log.(file := log.file + record, needsHeal := false), true)
    else (log.(file := log.file + if written < 0 then [] else record[..written], poisoned := true), false)
  }

  /** Whether session_append gets as far as writing. */
  predicate Accepts(log: Log, msg: Json) {
    && IsMessage(msg)
    && !log.poisoned
    && |log.messages| < MAX_MESSAGES
    && |PrintedLine(msg)| <= MAX_LINE
  }

  /** session_append. */
  function Append(log: Log, msg: Json, written: int): (Log, bool)
    requires Accepts(log, msg) ==> -1 <= written <= |Record(log, PrintedLine(msg))|
  {
    if !Accepts(log, msg) then (log, false)
    else
      var (after, ok) := WriteLine(log, PrintedLine(msg), written);
      if ok then (after.(messages := after.messages + [msg]), true) else (after, false)
  }

  /** The session that session_load hands out for a file. */
  function Reopened(file: bytes): Option<Log> {
    match Load(file)
    case Err(_) => None
    case Ok(l) => Some(Log(file, l.scan.messages, false, l.needsHeal))
  }

  /** The header that session_new writes. */
  function Header(id: bytes, created: Json): Json {
    Object([Member(KEY_TYPE, String(TEXT_SESSION)), Member(KEY_VERSION, Integer(1)), Member(KEY_ID, String(id)),
            Member(KEY_CREATED, created)])
  }
}
