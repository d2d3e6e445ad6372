/** The read and edit tools of src/mua/tools.c. */
module Tools {
  import opened Bytes
  import opened Memory
  import opened ToolsSpec

  /** ReadScan; the window is a capped buffer. */
  class ReadScan {
    const offset: nat
    const limit: nat
    var currentLine: nat
    var linesTaken: nat
    const window: Buf
    var windowFull: bool
    var finished: bool
    ghost var fed: bytes

    ghost function Abs(): Scan
      requires window.Valid()
      reads this, window
    {
      Scan(currentLine, linesTaken, window.Contents(), windowFull, finished)
    }

    ghost predicate Valid()
      reads this, window
    {
      window.Valid() && offset >= 1 && limit >= 1 && Abs() == Run(START, fed, offset, limit, window.max)
    }

    constructor (offset: nat, limit: nat, cap: nat)
      requires offset >= 1 && limit >= 1
      ensures Valid() && fresh(window) && fed == [] && window.max == cap
      ensures this.offset == offset && this.limit == limit
    {
      this.offset, this.limit := offset, limit;
      currentLine, linesTaken, windowFull, finished := 1, 0, false, false;
      window := new Buf(cap);
      fed := [];
    }

    /** One segment: bytes up to and with a line feed, or up to the chunk's end. */
    method TakeSegment(seg: bytes, ends: bool)
      requires Valid() && !finished && seg != [] && ends == (seg[|seg| - 1] == LF) && LF !in seg[..|seg| - 1]
      modifies this, window
      ensures Valid() && fed == old(fed) + seg
    {
      hide Run;
      ghost var was := Abs();
      RunConcat(START, fed, seg, offset, limit, window.max);
      SegmentRuns(was, seg, offset, limit, window.max);
      fed := fed + seg;
      if currentLine >= offset {
        var ok := window.Append(seg);
        if !ok {
          var room := window.max - window.size;
          if room > 0 { var _ := window.Append(seg[..room]); }
          windowFull, finished := true, true;
          return;
        }
        if ends {
          linesTaken := linesTaken + 1;
          if linesTaken >= limit { finished := true; }
        }
      }
      if ends { currentLine := currentLine + 1; }
    }

    /**
     read_scan_chunk: whatever the chunks, the window is the requested lines of everything fed so far, cut at its cap.
     */
    method Feed(chunk: bytes)
      requires Valid()
      modifies this, window
      ensures Valid() && fed == old(fed) + chunk
      ensures window.Contents() == Cut(Range(fed, offset, limit), window.max)
      ensures windowFull <==> |Range(fed, offset, limit)| > window.max
    {
      hide Run, Range;
      var pos := 0;
      ghost var before := fed;
      assert before + chunk[..0] == before;
      while pos < |chunk| && !finished
        invariant pos <= |chunk| && Valid() && fed == before + chunk[..pos]
      {
        var nl := Find(chunk[pos..], LF);
        var ends := pos + nl < |chunk|;
        var segEnd := if ends then pos + nl + 1 else |chunk|;
        ghost var seg := chunk[pos..segEnd];
        assert forall i :: 0 <= i < |seg| ==> seg[i] == chunk[pos..][i];
        assert ends ==> seg[|seg| - 1] == LF;
        assert LF !in seg[..|seg| - 1];
        TakeSegment(chunk[pos..segEnd], ends);
        assert before + chunk[..pos] + seg == before + chunk[..segEnd];
        pos := segEnd;
      }
      ghost var rest := chunk[pos..];
      RunConcat(START, fed, rest, offset, limit, window.max);
      if finished { FinishedStays(Abs(), rest, offset, limit, window.max); } else { assert rest == []; }
      Same(fed, rest);
      fed := fed + rest;
      assert before + chunk[..pos] + rest == before + chunk;
      WindowIsTheRange(fed, offset, limit, window.max);
    }

    lemma Same(s: bytes, rest: bytes)
      ensures rest == [] ==> s + rest == s
    {
    }
  }

  lemma {:induction false} FinishedStays(s: Scan, rest: bytes, offset: nat, limit: nat, cap: nat)
    requires s.finished
    ensures Run(s, rest, offset, limit, cap) == s
    decreases |rest|
  {
    if rest != [] { FinishedStays(s, rest[..|rest| - 1], offset, limit, cap); }
  }

  /** Bytes without a line feed are passed over in front of the range, and else fill the window. */
  lemma {:induction false} PlainRuns(s: Scan, t: bytes, offset: nat, limit: nat, cap: nat)
    requires LF !in t && !s.finished && |s.window| <= cap
    ensures Run(s, t, offset, limit, cap)
      == if s.line < offset then s
         else if |s.window| + |t| <= cap then s.(window := s.window + t)
         else s.(window := s.window + t[..cap - |s.window|], full := true, finished := true)
    decreases |t|
  {
    if t == [] {
      assert s.window + t == s.window;
    } else {
      var front, b := t[..|t| - 1], t[|t| - 1];
      assert b in t;
      PlainRuns(s, front, offset, limit, cap);
      assert |s.window| + |front| <= cap ==> s.window + t == s.window + front + [b];
      assert |s.window| + |front| == cap ==> t[..cap - |s.window|] == front;
      assert |s.window| + |front| > cap ==> t[..cap - |s.window|] == front[..cap - |s.window|];
    }
  }

  lemma SegmentRuns(s: Scan, seg: bytes, offset: nat, limit: nat, cap: nat)
    requires seg != [] && LF !in seg[..|seg| - 1] && !s.finished && |s.window| <= cap
    ensures Run(s, seg, offset, limit, cap)
      == var ends := seg[|seg| - 1] == LF;
         if s.line < offset then (if ends then s.(line := s.line + 1) else s)
         else if |s.window| + |seg| > cap then
           s.(window := s.window + seg[..cap - |s.window|], full := true, finished := true)
         else if ends then
           Scan(s.line + 1, s.taken + 1, s.window + seg, s.full, s.taken + 1 >= limit)
         else s.(window := s.window + seg)
  {
    var front, b := seg[..|seg| - 1], seg[|seg| - 1];
    PlainRuns(s, front, offset, limit, cap);
    assert |s.window| + |front| <= cap ==> s.window + seg == s.window + front + [b];
    assert |s.window| + |front| == cap ==> seg[..cap - |s.window|] == front;
    assert |s.window| + |front| > cap ==> seg[..cap - |s.window|] == front[..cap - |s.window|];
  }

  // ----- edit -----

  /** Where the needle's first byte does not stand, no match begins. */
  lemma SkipTo(hay: bytes, needle: bytes, from: nat, to: nat)
    requires from <= to && needle != [] && forall p :: from <= p < to && p < |hay| ==> hay[p] != needle[0]
    ensures Matches(hay, needle, to) == Matches(hay, needle, from)
  {
    forall p | from <= p < to ensures !MatchAt(hay, needle, p) {
      if p + |needle| <= |hay| { assert hay[p..p + |needle|][0] == hay[p]; }
    }
  }

  lemma OneMore(hay: bytes, needle: bytes, p: nat)
    ensures Matches(hay, needle, p + 1) == Matches(hay, needle, p) + if MatchAt(hay, needle, p) then {p} else {}
    ensures |Matches(hay, needle, p + 1)| == |Matches(hay, needle, p)| + if MatchAt(hay, needle, p) then 1 else 0
  {
    assert Matches(hay, needle, p + 1) == Matches(hay, needle, p) + if MatchAt(hay, needle, p) then {p} else {};
  }

  lemma NoRoom(hay: bytes, needle: bytes, from: nat)
    requires from + |needle| > |hay|
    ensures Matches(hay, needle, |hay| + 1) == Matches(hay, needle, from) || from > |hay| + 1
  {
  }

  lemma {:induction false} FewerBefore(hay: bytes, needle: bytes, p: nat, q: nat)
    requires p <= q
    ensures |Matches(hay, needle, p)| <= |Matches(hay, needle, q)|
    decreases q - p
  {
    if p < q {
      FewerBefore(hay, needle, p, q - 1);
      OneMore(hay, needle, q - 1);
    }
  }

  /** count_occurrences: jumping from one first byte to the next counts every match, up to the cap. */
  method CountOccurrences(hay: bytes, needle: bytes) returns (count: nat, first: nat)
    requires needle != []
    ensures count == (if |AllMatches(hay, needle)| < COUNT_CAP then |AllMatches(hay, needle)| else COUNT_CAP)
    ensures count > 0 ==> MatchAt(hay, needle, first) && forall p :: 0 <= p < first ==> !MatchAt(hay, needle, p)
    ensures count == 1 ==> AllMatches(hay, needle) == {first}
  {
    hide Matches;
    count, first := 0, 0;
    NoneYet(hay, needle);
    if |needle| > |hay| {
      NoRoom(hay, needle, 0);
      return;
    }
    var cursor, left := 0, |hay|;
    while left >= |needle|
      invariant cursor + left == |hay| && left >= 0 && count < COUNT_CAP
      invariant count == |Matches(hay, needle, cursor)|
      invariant if count == 0 then forall p :: 0 <= p < cursor ==> !MatchAt(hay, needle, p)
                else first < cursor && MatchAt(hay, needle, first) && forall p :: 0 <= p < first ==>
                    !MatchAt(hay, needle, p)
      decreases left
    {
      var area := hay[cursor..cursor + (left - |needle| + 1)];
      var hop := Find(area, needle[0]);
      assert forall p :: cursor <= p < cursor + hop ==> hay[p] == area[p - cursor];
      SkipTo(hay, needle, cursor, cursor + hop);
      NotBefore(hay, needle, cursor, cursor + hop);
      if hop == |area| {
        NoRoom(hay, needle, cursor + hop);
        OnlyFirst(hay, needle, first, |hay| + 1);
        return;
      }
      left, cursor := left - hop, cursor + hop;
      OneMore(hay, needle, cursor);
      if hay[cursor..cursor + |needle|] == needle {
        if count == 0 { first := cursor; }
        count := count + 1;
        if count >= COUNT_CAP {
          FewerBefore(hay, needle, cursor + 1, |hay| + 1);
          return;
        }
      }
      cursor, left := cursor + 1, left - 1;
    }
    NoRoom(hay, needle, cursor);
    OnlyFirst(hay, needle, first, |hay| + 1);
  }

  lemma NoneYet(hay: bytes, needle: bytes)
    ensures Matches(hay, needle, 0) == {}
  {
  }

  lemma NotBefore(hay: bytes, needle: bytes, from: nat, to: nat)
    requires from <= to && Matches(hay, needle, from) == Matches(hay, needle, to)
    ensures forall p :: from <= p < to ==> !MatchAt(hay, needle, p)
  {
    forall p | from <= p < to ensures !MatchAt(hay, needle, p) {
      assert p in Matches(hay, needle, to) <==> MatchAt(hay, needle, p);
      assert p !in Matches(hay, needle, from);
    }
  }

  /** A single match is the first one. */
  lemma OnlyFirst(hay: bytes, needle: bytes, first: nat, n: nat)
    ensures |Matches(hay, needle, n)| == 1 && first < n && MatchAt(hay, needle, first) ==>
        Matches(hay, needle, n) == {first}
  {
    var ms := Matches(hay, needle, n);
    if |ms| == 1 && first < n && MatchAt(hay, needle, first) {
      assert first in ms;
      assert |ms - {first}| == 0;
      assert ms == {first};
    }
  }

  /** edit: the file changes only when the old text occurs once, and then exactly there. */
  method EditFile(data: bytes, old_: bytes, new_: bytes) returns (r: Edit)
    requires old_ != []
    ensures old_ == new_ <==> r == Identical
    ensures old_ != new_ ==> (r == NotFound <==> |AllMatches(data, old_)| == 0)
    ensures r.Replaced? <==> old_ != new_ && |AllMatches(data, old_)| == 1
    ensures r.Replaced? ==> exists p ::
      AllMatches(data, old_) == {p} && MatchAt(data, old_, p) && r.data == Splice(data, p, old_, new_)
    ensures r.Ambiguous? ==>
      r.count == if |AllMatches(data, old_)| < COUNT_CAP then |AllMatches(data, old_)| else COUNT_CAP
  {
    if old_ == new_ { return Identical; }
    var count, first := CountOccurrences(data, old_);
    if count != 1 { return if count == 0 then NotFound else Ambiguous(count); }
    r := Replaced(data[..first] + new_ + data[first + |old_|..]);
  }
}
