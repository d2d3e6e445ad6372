/** Bytes, byte strings and the one library search every scanner here relies on. */
module Bytes {
  type byte = b: int | 0 <= b < 256

  type bytes = seq<byte>

  const NUL: byte := 0
  const LF: byte := 10
  const CR: byte := 13
  const SPACE: byte := 32

  datatype Option<+T> = None | Some(value: T)

  /** The bytes of an ASCII literal. */
  function Ascii(s: string): (b: bytes)
    requires forall i :: 0 <= i < |s| ==> s[i] as int < 256
    ensures |b| == |s| && forall i :: 0 <= i < |s| ==> b[i] == s[i] as int
  {
    seq(|s|, i requires 0 <= i < |s| => s[i] as int)
  }

  /** memchr as an offset: the first occurrence of `b`, or |s| when there is none. */
  function Find(s: bytes, b: byte): (i: nat)
    ensures i <= |s|
    ensures i < |s| ==> s[i] == b
    ensures forall j :: 0 <= j < i ==> s[j] != b
  {
    if s == [] then 0 else if s[0] == b then 0 else 1 + Find(s[1..], b)
  }

  function LineFeeds(s: bytes): nat {
    if s == [] then 0 else LineFeeds(s[..|s| - 1]) + if s[|s| - 1] == LF then 1 else 0
  }

  /** The stream that arrives in these chunks. */
  function Joined(chunks: seq<bytes>): bytes {
    if chunks == [] then [] else Joined(chunks[..|chunks| - 1]) + chunks[|chunks| - 1]
  }

  lemma {:induction false} JoinedConcat(a: seq<bytes>, b: seq<bytes>)
    ensures Joined(a + b) == Joined(a) + Joined(b)
    decreases |b|
  {
    if b == [] {
      assert a + b == a;
    } else {
      var n := |b| - 1;
      assert (a + b)[..|a + b| - 1] == a + b[..n];
      JoinedConcat(a, b[..n]);
    }
  }

  /** Lines, each with its line feed. */
  function Ended(lines: seq<bytes>): bytes {
    if lines == [] then [] else Ended(lines[..|lines| - 1]) + lines[|lines| - 1] + [LF]
  }

  predicate NoFeed(lines: seq<bytes>) { forall i :: 0 <= i < |lines| ==> LF !in lines[i] }

  lemma EndedSnoc(lines: seq<bytes>, t: bytes)
    ensures Ended(lines + [t]) == Ended(lines) + t + [LF]
  {
    assert (lines + [t])[..|lines|] == lines;
  }

  /** Every stream is lines and a rest. */
  lemma {:induction false} EveryStreamIsLines(s: bytes) returns (lines: seq<bytes>, rest: bytes)
    ensures NoFeed(lines) && LF !in rest && s == Ended(lines) + rest
    decreases |s|
  {
    if s == [] {
      lines, rest := [], [];
    } else {
      var n := |s| - 1;
      var front, line := EveryStreamIsLines(s[..n]);
      assert s == s[..n] + [s[n]];
      if s[n] == LF {
        lines, rest := front + [line], [];
        assert lines[..|front|] == front;
      } else {
        lines, rest := front, line + [s[n]];
      }
    }
  }
}
