/** What a session file means, line by line: its header, its messages, and the first line that stops the load. */
module SessionFile {
  import opened Bytes
  import opened CJsonSpec
  import opened SessionSpec
  import L = SessionLaws

  // ----- a line -----

  /** The first member of this name has this value. */
  ghost predicate Carries(v: Json, name: string, x: Json)
    requires forall i :: 0 <= i < |name| ==> name[i] as int < 256
  {
    v.Object? && exists i ::
      && 0 <= i < |v.members| && v.members[i] == Member(Ascii(name), x)
      && forall j :: 0 <= j < i ==> v.members[j].key != Ascii(name)
  }

  ghost predicate HasText(v: Json, name: string)
    requires forall i :: 0 <= i < |name| ==> name[i] as int < 256
  {
    exists s :: Carries(v, name, String(s))
  }

  function Doc(line: bytes): Option<Json> { ParseDocument(line, 8388608) }

  /** A line with a conversation message. */
  ghost predicate IsMessageLine(line: bytes) { Doc(line).Some? && HasText(Doc(line).value, "role") }

  /** A line that is neither blank nor a message nor another record. */
  ghost predicate IsBad(line: bytes) {
    line != [] && (Doc(line).None? || (!HasText(Doc(line).value, "role") && !HasText(Doc(line).value, "type")))
  }

  predicate IsNumber(x: Json) { x.Integer? || x.Real? }

  predicate IsOne(x: Json) { x == Integer(1) || (x.Real? && CutsToOne(x.text)) }

  /** A session header with this id and this version. */
  ghost predicate IsHeader(v: Json, id: bytes, version: Json) {
    && Carries(v, "type", String(Ascii("session"))) && Carries(v, "id", String(id)) && 1 <= |id| <= 18
    && Carries(v, "version", version) && IsNumber(version)
  }

  /** What a first line that is not blank comes to. */
  ghost predicate FirstLine(line: bytes, o: Outcome<bytes>) {
    if o.Ok? then Doc(line).Some? && exists x :: IsHeader(Doc(line).value, o.value, x) && IsOne(x)
    else if o.error.NotAHeader? then Doc(line).None? || forall id, x :: !IsHeader(Doc(line).value, id, x)
    else if o.error.UnsupportedVersion? then
      var x := o.error.version;
      Doc(line).Some? && !IsOne(x) && exists id :: IsHeader(Doc(line).value, id, x)
    else false
  }

  // ----- the lines before -----

  /** The messages of these lines, the first line aside. */
  ghost function MessagesIn(ls: seq<bytes>): seq<Json> {
    if |ls| <= 1 then []
    else
      var last := ls[|ls| - 1];
      MessagesIn(ls[..|ls| - 1]) + if IsMessageLine(last) then [Doc(last).value] else []
  }

  /** The number of the first bad line, the first line aside; zero when there is none. */
  ghost function FirstBad(ls: seq<bytes>): nat {
    if |ls| <= 1 then 0
    else
      var n := FirstBad(ls[..|ls| - 1]);
      if n != 0 then n else if IsBad(ls[|ls| - 1]) then |ls| else 0
  }

  /** Why the load stops at a line with these before it. */
  ghost predicate Stops(before: seq<bytes>, line: bytes, e: LoadError) {
    if |line| > 8388608 then e == LineTooLong(|before| + 1)
    else if line == [] then false
    else if before == [] then FirstLine(line, Err(e))
    else if FirstBad(before) != 0 then e == CorruptLine(FirstBad(before))
    else IsMessageLine(line) && |MessagesIn(before)| >= 4096 && e == TooManyMessages
  }

  ghost predicate StopsHere(before: seq<bytes>, line: bytes) { exists e :: Stops(before, line, e) }

  ghost predicate StopsAt(ls: seq<bytes>, k: nat) { k < |ls| && StopsHere(ls[..k], ls[k]) }

  /** What the lines of a file come to; `heal` says whether the last one lacks its line feed. */
  ghost predicate LoadsAs(ls: seq<bytes>, heal: bool, o: Outcome<Loaded>) {
    if o.Err? then
      exists k :: 0 <= k < |ls| && Stops(ls[..k], ls[k], o.error) && forall j :: 0 <= j < k ==> !StopsAt(ls, j)
    else
      && (forall k :: 0 <= k < |ls| ==> !StopsAt(ls, k))
      && o.value.needsHeal == heal && o.value.scan.lineNo == |ls| && o.value.scan.messages == MessagesIn(ls)
      && o.value.scan.staged == FirstBad(ls)
      && if ls == [] || ls[0] == [] then o.value.scan.id == [] else FirstLine(ls[0], Ok(o.value.scan.id))
  }

  // ----- looking up -----

  lemma {:induction false} LookupFinds(ms: seq<Member>, key: bytes, x: Json)
    ensures Lookup(ms, key) == Some(x) <==>
      exists i :: 0 <= i < |ms| && ms[i] == Member(key, x) && forall j :: 0 <= j < i ==> ms[j].key != key
  {
    if ms != [] && ms[0].key != key {
      LookupFinds(ms[1..], key, x);
      if i :| 0 <= i < |ms| && ms[i] == Member(key, x) && forall j :: 0 <= j < i ==> ms[j].key != key {
        assert ms[1..][i - 1] == ms[i];
        forall j | 0 <= j < i - 1 ensures ms[1..][j].key != key { assert ms[1..][j] == ms[j + 1]; }
      }
      if i :| 0 <= i < |ms[1..]| && ms[1..][i] == Member(key, x) && forall j :: 0 <= j < i ==> ms[1..][j].key != key {
        assert ms[i + 1] == ms[1..][i];
        forall j | 0 <= j < i + 1 ensures ms[j].key != key { if j > 0 { assert ms[1..][j - 1] == ms[j]; } }
      }
    } else if ms != [] {
      assert ms[0] == Member(key, ms[0].value);
    }
  }

  lemma CarriesIff(v: Json, name: string, key: bytes, x: Json)
    requires forall i :: 0 <= i < |name| ==> name[i] as int < 256
    requires key == Ascii(name)
    ensures Carries(v, name, x) <==> v.Object? && Lookup(v.members, key) == Some(x)
  {
    hide Ascii;
    if v.Object? { LookupFinds(v.members, key, x); }
  }

  lemma HasTextIff(v: Json, name: string, key: bytes)
    requires forall i :: 0 <= i < |name| ==> name[i] as int < 256
    requires key == Ascii(name)
    ensures HasText(v, name) <==> GetString(v, key).Some?
  {
    hide Ascii, Carries;
    if s :| Carries(v, name, String(s)) { CarriesIff(v, name, key, String(s)); }
    if GetString(v, key).Some? { CarriesIff(v, name, key, String(GetString(v, key).value)); }
  }

  lemma Keys()
    ensures KEY_TYPE == Ascii("type") && KEY_ROLE == Ascii("role") && KEY_ID == Ascii("id")
    ensures KEY_VERSION == Ascii("version") && TEXT_SESSION == Ascii("session")
  {
  }

  lemma HeaderIff(v: Json, id: bytes, version: Json)
    ensures IsHeader(v, id, version) <==>
      && GetString(v, KEY_TYPE) == Some(TEXT_SESSION) && GetString(v, KEY_ID) == Some(id) && 1 <= |id| <= 18
      && v.Object? && Lookup(v.members, KEY_VERSION) == Some(version) && IsNumber(version)
  {
    hide Ascii, Carries, Lookup;
    Keys();
    CarriesIff(v, "type", KEY_TYPE, String(TEXT_SESSION));
    CarriesIff(v, "id", KEY_ID, String(id));
    CarriesIff(v, "version", KEY_VERSION, version);
  }

  /** The header check does what it says. */
  lemma HeaderMeans(s: Scan, v: Json)
    ensures var r := ConsumeHeader(s, v);
      && (r.Ok? ==> r.value == s.(id := r.value.id) && exists x :: IsHeader(v, r.value.id, x) && IsOne(x))
      && (r.Err? ==> r.error.NotAHeader? || r.error.UnsupportedVersion?)
      && (r.Err? && r.error.UnsupportedVersion? ==> !IsOne(r.error.version))
      && (r.Err? && r.error.UnsupportedVersion? ==> exists id :: IsHeader(v, id, r.error.version))
      && (r.Err? && r.error.NotAHeader? ==> forall id, x :: !IsHeader(v, id, x))
  {
    hide CutsToOne, GetString, Lookup, IsHeader;
    forall id, x ensures IsHeader(v, id, x) <==>
        && GetString(v, KEY_TYPE) == Some(TEXT_SESSION) && GetString(v, KEY_ID) == Some(id) && 1 <= |id| <= 18
        && v.Object? && Lookup(v.members, KEY_VERSION) == Some(x) && IsNumber(x)
    {
      HeaderIff(v, id, x);
    }
    if GetString(v, KEY_ID).Some? && v.Object? && Lookup(v.members, KEY_VERSION).Some? {
      var id, x := GetString(v, KEY_ID).value, Lookup(v.members, KEY_VERSION).value;
      assert IsHeader(v, id, x) <==> ConsumeHeader(s, v) != Err(NotAHeader);
    }
  }

  lemma FirstLineMeans(line: bytes)
    requires line != [] && |line| <= 8388608
    ensures var r := ConsumeLine(Scan(0, 0, [], []), line);
      && (r.Ok? ==> r.value == Scan(1, 0, [], r.value.id) && FirstLine(line, Ok(r.value.id)))
      && (r.Err? ==> FirstLine(line, Err(r.error)))
  {
    hide ParseDocument, ConsumeHeader, IsHeader, IsOne, IsMessage, IsControl;
    if Doc(line).Some? { HeaderMeans(Scan(1, 0, [], []), Doc(line).value); }
  }

  /** A first line has one outcome. */
  lemma FirstLineOnce(line: bytes, a: Outcome<bytes>, b: Outcome<bytes>)
    requires FirstLine(line, a) && FirstLine(line, b)
    ensures a == b
  {
    hide ParseDocument, Carries, IsOne;
    if Doc(line).Some? {
      var v := Doc(line).value;
      forall id, x | IsHeader(v, id, x)
        ensures GetString(v, KEY_ID) == Some(id) && v.Object? && Lookup(v.members, KEY_VERSION) == Some(x)
      {
        HeaderIff(v, id, x);
      }
    }
  }

  lemma LineKinds(line: bytes)
    ensures Doc(line).Some? ==>
      && (HasText(Doc(line).value, "role") <==> IsMessage(Doc(line).value))
      && (HasText(Doc(line).value, "type") <==> IsControl(Doc(line).value))
  {
    hide ParseDocument, Ascii;
    Keys();
    if Doc(line).Some? {
      HasTextIff(Doc(line).value, "role", KEY_ROLE);
      HasTextIff(Doc(line).value, "type", KEY_TYPE);
    }
  }

  /** The state behind these lines: stopped by one of them, or what they come to. */
  ghost predicate Behind(ls: seq<bytes>, l: Loading) {
    if l.Failed? then LoadsAs(ls, false, Err(l.error))
    else l.line == [] && LoadsAs(ls, false, Ok(Loaded(l.scan, false)))
  }

  /** One more line, consumed by a load that none of those before has stopped. */
  lemma LineConsumed(before: seq<bytes>, scan: Scan, line: bytes)
    requires before != [] && scan.lineNo == |before| && scan.staged == FirstBad(before)
    requires scan.messages == MessagesIn(before) && |line| <= 8388608
    ensures var r := ConsumeLine(scan, line);
      && (r.Err? ==> Stops(before, line, r.error))
      && (r.Ok? ==>
        && !StopsHere(before, line)
        && r.value == Scan(|before| + 1, FirstBad(before + [line]), MessagesIn(before + [line]), scan.id))
  {
    hide ParseDocument, HasText, IsMessage, IsControl;
    LineKinds(line);
    assert (before + [line])[..|before|] == before;
    if line == [] { BlankIsNoDocument(); }
  }

  lemma BlankIsNoDocument()
    ensures Doc([]).None?
  {
  }

  // ----- the lines of a file -----

  /** Of the lines with one more behind them, the first ones are as before. */
  lemma Front(ls: seq<bytes>, line: bytes)
    ensures forall k :: 0 <= k < |ls| ==> (ls + [line])[..k] == ls[..k] && (ls + [line])[k] == ls[k]
    ensures (ls + [line])[..|ls|] == ls && (ls + [line])[|ls|] == line
    ensures forall k :: 0 <= k < |ls| ==> (StopsAt(ls + [line], k) <==> StopsAt(ls, k))
    ensures StopsAt(ls + [line], |ls|) <==> StopsHere(ls, line)
  {
    hide StopsHere;
    assert forall k :: 0 <= k < |ls| ==> (ls + [line])[..k] == ls[..k];
  }

  lemma StoppedStays(ls: seq<bytes>, line: bytes, e: LoadError, a: bool, b: bool)
    requires LoadsAs(ls, a, Err(e))
    ensures LoadsAs(ls + [line], b, Err(e))
  {
    hide Stops, StopsAt;
    Front(ls, line);
    var k :| 0 <= k < |ls| && Stops(ls[..k], ls[k], e) && forall j :: 0 <= j < k ==> !StopsAt(ls, j);
    var all := ls + [line];
    assert Stops(all[..k], all[k], e);
  }

  lemma StopsNow(ls: seq<bytes>, line: bytes, x: Loaded, e: LoadError, heal: bool)
    requires LoadsAs(ls, false, Ok(x)) && Stops(ls, line, e)
    ensures LoadsAs(ls + [line], heal, Err(e))
  {
    hide Stops, StopsAt, FirstLine;
    Front(ls, line);
    var all := ls + [line];
    assert Stops(all[..|ls|], all[|ls|], e);
  }

  lemma GoesOn(ls: seq<bytes>, line: bytes, x: Loaded, s: Scan, heal: bool)
    requires LoadsAs(ls, false, Ok(x)) && !StopsHere(ls, line)
    requires s.lineNo == |ls| + 1 && s.staged == FirstBad(ls + [line]) && s.messages == MessagesIn(ls + [line])
    requires if ls != [] then s.id == x.scan.id else if line == [] then s.id == [] else FirstLine(line, Ok(s.id))
    ensures LoadsAs(ls + [line], heal, Ok(Loaded(s, heal)))
  {
    hide StopsAt, StopsHere, FirstLine, FirstBad, MessagesIn;
    Front(ls, line);
    var all := ls + [line];
    forall k | 0 <= k < |all| ensures !StopsAt(all, k) {
      if k < |ls| { assert !StopsAt(ls, k); }
    }
    assert all[0] == if ls == [] then line else ls[0];
  }

  /** The very first line. */
  lemma FirstBehind(line: bytes)
    requires |line| <= 8388608
    ensures var r := ConsumeLine(Scan(0, 0, [], []), line);
      && (r.Err? ==> Stops([], line, r.error))
      && (r.Ok? ==> !StopsHere([], line) && r.value == Scan(1, 0, [], r.value.id))
      && (r.Ok? ==> if line == [] then r.value.id == [] else FirstLine(line, Ok(r.value.id)))
  {
    hide ParseDocument, ConsumeHeader, IsHeader, IsOne, IsMessage, IsControl, FirstLine, FirstBad, MessagesIn;
    if line != [] {
      FirstLineMeans(line);
      var r := ConsumeLine(Scan(0, 0, [], []), line);
      if r.Ok? && StopsHere([], line) {
        var e :| Stops([], line, e);
        FirstLineOnce(line, Ok(r.value.id), Err(e));
      }
    }
  }

  /** One more line behind those read so far. */
  lemma OneMore(ls: seq<bytes>, scan: Scan, line: bytes, heal: bool)
    requires LoadsAs(ls, false, Ok(Loaded(scan, false))) && |line| <= 8388608
    ensures match ConsumeLine(scan, line)
      case Err(e) => LoadsAs(ls + [line], heal, Err(e))
      case Ok(s) => LoadsAs(ls + [line], heal, Ok(Loaded(s, heal)))
  {
    hide ConsumeLine, Stops, StopsHere, FirstLine, StopsAt;
    if ls == [] {
      assert scan == Scan(0, 0, [], []);
      FirstBehind(line);
      OneLine(line);
    } else {
      LineConsumed(ls, scan, line);
    }
    match ConsumeLine(scan, line)
    case Err(e) => StopsNow(ls, line, Loaded(scan, false), e, heal);
    case Ok(s) => GoesOn(ls, line, Loaded(scan, false), s, heal);
  }

  lemma OneLine(line: bytes)
    ensures FirstBad([] + [line]) == 0 && MessagesIn([] + [line]) == []
  {
    assert [] + [line] == [line];
  }

  lemma TooLong(ls: seq<bytes>, scan: Scan, line: bytes, heal: bool)
    requires LoadsAs(ls, false, Ok(Loaded(scan, false))) && |line| > 8388608
    ensures LoadsAs(ls + [line], heal, Err(LineTooLong(scan.lineNo + 1)))
  {
    assert Stops(ls, line, LineTooLong(scan.lineNo + 1));
    StopsNow(ls, line, Loaded(scan, false), LineTooLong(scan.lineNo + 1), heal);
  }

  /** A line and its line feed. */
  lemma LineBehind(ls: seq<bytes>, l: Loading, line: bytes)
    requires Behind(ls, l) && LF !in line
    ensures Behind(ls + [line], Run(l, line + [LF]))
  {
    hide LoadsAs, Run, ConsumeLine;
    match l
    case Failed(e) =>
      L.FailedStays(e, line + [LF]);
      StoppedStays(ls, line, e, false, false);
    case Reading(scan, _) =>
      if |line| <= 8388608 {
        L.RunLine(scan, [], line);
        assert [] + line == line;
        OneMore(ls, scan, line, false);
      } else {
        L.RunPlain(scan, [], line);
        L.RunConcat(l, line, [LF]);
        L.FailedStays(LineTooLong(scan.lineNo + 1), [LF]);
        TooLong(ls, scan, line, false);
      }
  }

  lemma {:induction false} LinesBehind(ls: seq<bytes>)
    requires NoFeed(ls)
    ensures Behind(ls, Run(START, Ended(ls)))
    decreases |ls|
  {
    hide Behind, Run;
    if ls == [] {
      NoneBehind();
    } else {
      var n := |ls| - 1;
      LinesBehind(ls[..n]);
      LineBehind(ls[..n], Run(START, Ended(ls[..n])), ls[n]);
      L.RunConcat(START, Ended(ls[..n]), ls[n] + [LF]);
      assert Ended(ls) == Ended(ls[..n]) + (ls[n] + [LF]) && ls[..n] + [ls[n]] == ls;
    }
  }

  lemma NoneBehind()
    ensures Behind([], Run(START, Ended([])))
  {
  }

  /** A last line without its line feed, or none. */
  lemma LastBehind(ls: seq<bytes>, l: Loading, rest: bytes)
    requires Behind(ls, l) && LF !in rest
    ensures LoadsAs(if rest == [] then ls else ls + [rest], rest != [], Finish(Run(l, rest)))
  {
    hide LoadsAs, Run, ConsumeLine;
    match l
    case Failed(e) =>
      L.FailedStays(e, rest);
      StoppedStays(ls, rest, e, false, true);
    case Reading(scan, _) =>
      L.RunPlain(scan, [], rest);
      assert [] + rest == rest;
      if |rest| > 8388608 {
        TooLong(ls, scan, rest, true);
      } else {
        OneMore(ls, scan, rest, true);
      }
  }

  lemma ErrorStops(ls: seq<bytes>, heal: bool, e: LoadError)
    requires LoadsAs(ls, heal, Err(e))
    ensures exists k :: 0 <= k < |ls| && StopsAt(ls, k)
  {
    hide Stops;
    var k :| 0 <= k < |ls| && Stops(ls[..k], ls[k], e) && forall j :: 0 <= j < k ==> !StopsAt(ls, j);
    assert StopsAt(ls, k);
  }

  /** Lines have one outcome. */
  lemma LoadsOnce(ls: seq<bytes>, heal: bool, a: Outcome<Loaded>, b: Outcome<Loaded>)
    requires LoadsAs(ls, heal, a) && LoadsAs(ls, heal, b)
    ensures a == b
  {
    hide Stops, FirstLine, FirstBad, MessagesIn;
    if b.Err? { ErrorStops(ls, heal, b.error); }
    if a.Err? {
      ErrorStops(ls, heal, a.error);
      var i :| 0 <= i < |ls| && Stops(ls[..i], ls[i], a.error) && forall j :: 0 <= j < i ==> !StopsAt(ls, j);
      assert StopsAt(ls, i);
      if b.Err? {
        var k :| 0 <= k < |ls| && Stops(ls[..k], ls[k], b.error) && forall j :: 0 <= j < k ==> !StopsAt(ls, j);
        assert StopsAt(ls, k);
        StopsOnce(ls[..i], ls[i], a.error, b.error);
      }
    } else if b.Ok? && ls != [] && ls[0] != [] {
      FirstLineOnce(ls[0], Ok(a.value.scan.id), Ok(b.value.scan.id));
    }
  }

  lemma StopsOnce(before: seq<bytes>, line: bytes, a: LoadError, b: LoadError)
    requires Stops(before, line, a) && Stops(before, line, b)
    ensures a == b
  {
    hide FirstLine, FirstBad, MessagesIn, IsMessageLine;
    if |line| <= 8388608 && before == [] { FirstLineOnce(line, Err(a), Err(b)); }
  }

  /**
   A file loads as its lines say: as the messages of the lines behind the header,
       other records and blank lines left out,
   up to a bad last line; or it is refused for the first line that stops it.
   */
  lemma LoadReads(lines: seq<bytes>, rest: bytes, o: Outcome<Loaded>)
    requires NoFeed(lines) && LF !in rest
    ensures Load(Ended(lines) + rest) == o <==>
      if lines == [] && rest == [] then o == Err(EmptyFile)
      else LoadsAs(if rest == [] then lines else lines + [rest], rest != [], o)
  {
    hide LoadsAs, Run, Finish;
    var file := Ended(lines) + rest;
    assert lines != [] ==> |Ended(lines)| > 0;
    LinesBehind(lines);
    L.RunConcat(START, Ended(lines), rest);
    LastBehind(lines, Run(START, Ended(lines)), rest);
    if file != [] && LoadsAs(if rest == [] then lines else lines + [rest], rest != [], o) {
      LoadsOnce(if rest == [] then lines else lines + [rest], rest != [], o, Load(file));
    }
  }

  /**
   An append is acknowledged exactly when the message has a string role, the session has seen no short write and holds
   fewer than 4096 messages, the line is at most 8 MiB, and the write takes all of it; only then does memory change.
   */
  lemma AppendAcknowledgedIff(log: Log, msg: Json, written: int)
    requires Accepts(log, msg) ==> -1 <= written <= |Record(log, PrintedLine(msg))|
    ensures var line := PrintedLine(msg);
      var whole := (if log.needsHeal then [10] else []) + line + [10];
      var (after, ok) := Append(log, msg, written);
      && (ok <==>
        && HasText(msg, "role") && !log.poisoned && |log.messages| < 4096 && |line| <= 8388608
        && written == |whole|)
      && (ok ==> after == Log(log.file + whole, log.messages + [msg], false, false))
      && (!ok ==> after.messages == log.messages && log.file <= after.file <= log.file + whole)
      && (!ok && after.file != log.file ==> after.poisoned)
  {
    hide Ascii, GetString, PrintedLine;
    Keys();
    HasTextIff(msg, "role", KEY_ROLE);
  }
}
