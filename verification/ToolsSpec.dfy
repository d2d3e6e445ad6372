/** The scans of src/mua/tools.c by what they are for: the lines a read asks for, and the matches an edit counts. */
module ToolsSpec {
  import opened Bytes

  /** kToolEditCountCap. */
  const COUNT_CAP := 100

  // ----- read -----

  /** The bytes of the `limit` lines from line `offset` on, the first line being line 1. */
  function Range(s: bytes, offset: nat, limit: nat): bytes {
    if s == [] then []
    else
      var front := s[..|s| - 1];
      Range(front, offset, limit) + if offset <= 1 + LineFeeds(front) < offset + limit then [s[|s| - 1]] else []
  }

  function Cut(s: bytes, cap: nat): bytes { if |s| <= cap then s else s[..cap] }

  /** ReadScan, a byte at a time. */
  datatype Scan = Scan(line: nat, taken: nat, window: bytes, full: bool, finished: bool)

  const START := Scan(1, 0, [], false, false)

  function Step(s: Scan, b: byte, offset: nat, limit: nat, cap: nat): Scan {
    if s.finished then s
    else if s.line < offset then (if b == LF then s.(line := s.line + 1) else s)
    else if |s.window| >= cap then s.(full := true, finished := true)
    else
      var t := s.(window := s.window + [b]);
      if b == LF then t.(line := s.line + 1, taken := s.taken + 1, finished := s.taken + 1 >= limit) else t
  }

  function Run(s: Scan, bytes: bytes, offset: nat, limit: nat, cap: nat): Scan {
    if bytes == [] then s
    else Step(Run(s, bytes[..|bytes| - 1], offset, limit, cap), bytes[|bytes| - 1], offset, limit, cap)
  }

  lemma {:induction false} RunConcat(s: Scan, a: bytes, b: bytes, offset: nat, limit: nat, cap: nat)
    ensures Run(s, a + b, offset, limit, cap) == Run(Run(s, a, offset, limit, cap), b, offset, limit, cap)
    decreases |b|
  {
    hide Step;
    if b == [] {
      assert a + b == a;
    } else {
      RunConcat(s, a, b[..|b| - 1], offset, limit, cap);
      assert (a + b)[..|a + b| - 1] == a + b[..|b| - 1];
    }
  }

  lemma {:induction false} RangePrefix(s: bytes, n: nat, offset: nat, limit: nat)
    requires n <= |s|
    ensures Range(s[..n], offset, limit) <= Range(s, offset, limit) && LineFeeds(s[..n]) <= LineFeeds(s)
    decreases |s|
  {
    if n == |s| {
      assert s[..n] == s;
    } else {
      var front := s[..|s| - 1];
      assert front[..n] == s[..n];
      RangePrefix(front, n, offset, limit);
    }
  }

  /** What a scan is after `s`: the window is the requested lines cut at the cap. */
  predicate Scanned(r: Scan, s: bytes, offset: nat, limit: nat, cap: nat) {
    var range := Range(s, offset, limit);
    && r.window == Cut(range, cap) && (r.full <==> |range| > cap)
    && (r.full ==> r.finished)
    && (r.finished && !r.full ==> 1 + LineFeeds(s) >= offset + limit)
    && (!r.finished ==>
          r.line == 1 + LineFeeds(s) < offset + limit && r.taken == (if r.line < offset then 0 else r.line - offset))
  }

  lemma StepScans(r: Scan, s: bytes, b: byte, offset: nat, limit: nat, cap: nat)
    requires limit >= 1 && offset >= 1 && Scanned(r, s, offset, limit, cap)
    ensures Scanned(Step(r, b, offset, limit, cap), s + [b], offset, limit, cap)
  {
    assert (s + [b])[..|s + [b]| - 1] == s;
    var range, more := Range(s, offset, limit), Range(s + [b], offset, limit);
    assert LineFeeds(s + [b]) == LineFeeds(s) + if b == LF then 1 else 0;
    assert range + [] == range;
  }

  /** For every file, the scan's window is the range of lines asked for, cut at its cap. */
  lemma {:induction false} WindowIsTheRange(s: bytes, offset: nat, limit: nat, cap: nat)
    requires limit >= 1 && offset >= 1
    ensures Scanned(Run(START, s, offset, limit, cap), s, offset, limit, cap)
    decreases |s|
  {
    hide Step;
    if s != [] {
      var front := s[..|s| - 1];
      WindowIsTheRange(front, offset, limit, cap);
      StepScans(Run(START, front, offset, limit, cap), front, s[|s| - 1], offset, limit, cap);
      assert front + [s[|s| - 1]] == s;
    }
  }

  // ----- the lines -----

  /** The lines numbered from `offset` on, at most `limit` of them, each with its line feed. */
  function Wanted(lines: seq<bytes>, offset: nat, limit: nat): bytes
    requires offset >= 1
  {
    var from := if offset - 1 < |lines| then offset - 1 else |lines|;
    var to := if from + limit < |lines| then from + limit else |lines|;
    Ended(lines[from..to])
  }

  lemma {:induction false} RangeOfPiece(s: bytes, t: bytes, offset: nat, limit: nat)
    requires LF !in t
    ensures Range(s + t, offset, limit)
         == Range(s, offset, limit) + if offset <= 1 + LineFeeds(s) < offset + limit then t else []
    ensures LineFeeds(s + t) == LineFeeds(s)
    decreases |t|
  {
    if t == [] {
      assert s + t == s;
    } else {
      var n := |t| - 1;
      assert t[n] in t && (s + t)[..|s + t| - 1] == s + t[..n];
      RangeOfPiece(s, t[..n], offset, limit);
      assert t[..n] + [t[n]] == t;
    }
  }

  lemma RangeOfFeed(s: bytes, offset: nat, limit: nat)
    ensures Range(s + [LF], offset, limit)
         == Range(s, offset, limit) + if offset <= 1 + LineFeeds(s) < offset + limit then [LF] else []
    ensures LineFeeds(s + [LF]) == LineFeeds(s) + 1
  {
    assert (s + [LF])[..|s + [LF]| - 1] == s;
  }

  lemma {:induction false} RangeOfLines(lines: seq<bytes>, offset: nat, limit: nat)
    requires offset >= 1 && NoFeed(lines)
    ensures Range(Ended(lines), offset, limit) == Wanted(lines, offset, limit) && LineFeeds(Ended(lines)) == |lines|
    decreases |lines|
  {
    hide Range, LineFeeds, Wanted;
    if lines == [] {
      NoLines(offset, limit);
    } else {
      var n := |lines| - 1;
      var front, last := lines[..n], lines[n];
      RangeOfLines(front, offset, limit);
      RangeOfPiece(Ended(front), last, offset, limit);
      RangeOfFeed(Ended(front) + last, offset, limit);
      WantedSnoc(front, last, offset, limit);
      assert front + [last] == lines;
      assert Wanted(front, offset, limit) + last + [LF] == Wanted(front, offset, limit) + (last + [LF]);
      assert Wanted(front, offset, limit) + [] + [] == Wanted(front, offset, limit) + [];
    }
  }

  lemma NoLines(offset: nat, limit: nat)
    requires offset >= 1
    ensures Range(Ended([]), offset, limit) == Wanted([], offset, limit) && LineFeeds(Ended([])) == 0
  {
  }

  lemma WantedSnoc(front: seq<bytes>, last: bytes, offset: nat, limit: nat)
    requires offset >= 1
    ensures Wanted(front + [last], offset, limit)
         == Wanted(front, offset, limit) + if offset <= 1 + |front| < offset + limit then last + [LF] else []
  {
    hide Ended;
    var n := |front|;
    var from := if offset - 1 < n then offset - 1 else n;
    if offset <= 1 + n < offset + limit {
      SliceSnoc(front, last, from);
      EndedSnoc(front[from..n], last);
      assert Ended(front[from..n]) + last + [LF] == Ended(front[from..n]) + (last + [LF]);
    } else if offset <= 1 + n {
      SliceWithin(front, last, from, from + limit);
      assert Ended(front[from..from + limit]) + [] == Ended(front[from..from + limit]);
    } else {
      assert front[n..n] == [] && (front + [last])[n + 1..n + 1] == [] && (front + [last])[n..n] == [];
      assert Ended([]) + [] == Ended([]);
    }
  }

  lemma SliceSnoc(front: seq<bytes>, last: bytes, from: nat)
    requires from <= |front|
    ensures (front + [last])[from..|front| + 1] == front[from..|front|] + [last]
  {
  }

  lemma SliceWithin(front: seq<bytes>, last: bytes, from: nat, to: nat)
    requires from <= to <= |front|
    ensures (front + [last])[from..to] == front[from..to]
  {
  }

  /**
   A read of a file shows the lines asked for, with what follows the last line feed as one more; cut at the cap, which
   the flag tells.
   */
  lemma ReadShowsTheLines(lines: seq<bytes>, rest: bytes, offset: nat, limit: nat, cap: nat)
    requires offset >= 1 && limit >= 1 && NoFeed(lines) && LF !in rest
    ensures var r := Run(START, Ended(lines) + rest, offset, limit, cap);
      var shown := Wanted(lines, offset, limit) + if offset <= |lines| + 1 < offset + limit then rest else [];
      && r.window == (if |shown| <= cap then shown else shown[..cap]) && (r.full <==> |shown| > cap)
  {
    hide Run, Wanted, Range;
    RangeOfLines(lines, offset, limit);
    RangeOfPiece(Ended(lines), rest, offset, limit);
    WindowIsTheRange(Ended(lines) + rest, offset, limit, cap);
  }

  // ----- edit -----

  predicate MatchAt(hay: bytes, needle: bytes, p: nat) {
    p + |needle| <= |hay| && hay[p..p + |needle|] == needle
  }

  /** The matches that begin before `n`, overlapping ones included. */
  function Matches(hay: bytes, needle: bytes, n: nat): set<nat> {
    set p | 0 <= p < n && MatchAt(hay, needle, p)
  }

  function AllMatches(hay: bytes, needle: bytes): set<nat> { Matches(hay, needle, |hay| + 1) }

  /** How an edit ends: without a change, or with the new contents. */
  datatype Edit = Identical | NotFound | Ambiguous(count: nat) | Replaced(data: bytes)

  function Splice(data: bytes, p: nat, old_: bytes, new_: bytes): bytes
    requires p + |old_| <= |data|
  {
    data[..p] + new_ + data[p + |old_|..]
  }

  /** Editing back undoes an edit whose new text is not to be found anywhere else. */
  lemma SpliceBack(data: bytes, p: nat, old_: bytes, new_: bytes)
    requires MatchAt(data, old_, p)
    ensures MatchAt(Splice(data, p, old_, new_), new_, p)
    ensures Splice(Splice(data, p, old_, new_), p, new_, old_) == data
  {
    var edited := Splice(data, p, old_, new_);
    assert edited[p..p + |new_|] == new_;
    assert edited[..p] == data[..p] && edited[p + |new_|..] == data[p + |old_|..];
    assert data == data[..p] + old_ + data[p + |old_|..];
  }
}
