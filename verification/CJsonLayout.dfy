/** How the printer lays a tree out, in the terms of CJsonGrammar: every blank, every escape, every digit. */
module CJsonLayout {
  import opened Bytes
  import opened CJsonSpec
  import opened CJsonLaws
  import opened CJsonWritten
  import G = CJsonGrammar

  // ----- the layout -----

  /** A byte is escaped only if it must be: by a letter if it has one, else by lower-case hex digits. */
  predicate CharFor(b: byte, c: G.Char) {
    if b == '"' as int || b == '\\' as int || b in {8, 9, 10, 12, 13} then c.Letter? && G.Named(c.letter) == Some(b)
    else if b < 32 then
      && c.Unit? && G.IsHex(c.hex) && G.Code(c.hex) == b
      && forall i :: 0 <= i < 4 ==> !('A' as int <= c.hex[i] <= 'F' as int)
    else c == G.Plain(b)
  }

  predicate CharsFor(s: bytes, cs: seq<G.Char>) {
    |cs| == |s| && forall i :: 0 <= i < |s| ==> CharFor(s[i], cs[i])
  }

  /** The whole number, without a leading zero. */
  predicate WholeFor(i: int, n: G.Num) {
    && n.frac == None && n.exp == None && n.minus == (i < 0) && n.whole != [] && G.Digits(n.whole)
    && G.Natural(n.whole) == (if i < 0 then -i else i) && (n.whole[0] == '0' as int ==> n.whole == ['0' as int])
  }

  /** A line feed and so many tabs. */
  function NewLine(depth: nat): bytes { [10] + seq(depth, _ => 9) }

  /**
   The value laid out `depth` containers deep.  Unformatted, there is no blank anywhere; formatted,
       a space stands behind
   the commas of an array, each member of an object on a line of its own behind a tab per level, a tab behind its colon,
   and the closing brace on a line of its own.
   */
  predicate Laid(v: Json, format: bool, depth: nat, w: G.Value)
    decreases v, 1
  {
    match v
    case Null => w == G.Word(Null)
    case False => w == G.Word(False)
    case True => w == G.Word(True)
    case Integer(i) => w.Number? && WholeFor(i, w.n)
    case Real(text) => w.Number? && G.SpellNum(w.n) == text
    case String(s) => w.Text? && CharsFor(s, w.cs)
    case Array(items) => w.List? && w.open == [] && ItemsLaid(items, format, depth + 1, true, w.items)
    case Object(members) =>
      && w.Record? && w.open == (if format && members == [] then NewLine(depth) else [])
      && MembersLaid(members, format, depth + 1, w.entries)
  }

  predicate ItemsLaid(items: seq<Json>, format: bool, depth: nat, first: bool, ws: seq<G.Item>)
    decreases items, 0
  {
    && |ws| == |items|
    && (items == [] || (ItemLaid(items[0], format, depth, first, ws[0])
        && ItemsLaid(items[1..], format, depth, false, ws[1..])))
  }

  predicate ItemLaid(v: Json, format: bool, depth: nat, first: bool, w: G.Item)
    decreases v, 2
  {
    w.before == (if format && !first then [32] else []) && w.after == [] && Laid(v, format, depth, w.value)
  }

  predicate MembersLaid(members: seq<Member>, format: bool, depth: nat, es: seq<G.Entry>)
    decreases members, 0
  {
    && |es| == |members|
    && (members == [] || (MemberLaid(members[0], format, depth, |members| == 1, es[0])
        && MembersLaid(members[1..], format, depth, es[1..])))
  }

  predicate MemberLaid(m: Member, format: bool, depth: nat, last: bool, e: G.Entry)
    decreases m, 2
  {
    && e.before == (if format then NewLine(depth) else []) && CharsFor(m.key, e.key)
    && e.beforeColon == [] && e.afterColon == (if format then [9] else [])
    && e.after == (if format && last && depth > 0 then NewLine(depth - 1) else [])
    && Laid(m.value, format, depth, e.value)
  }

  // ----- strings -----

  lemma CharLaid(b: byte) returns (c: G.Char)
    requires b != NUL
    ensures CharFor(b, c) && G.WellChar(c) && G.SpellChar(c) == EscapeByte(b)
  {
    if EscapeLetter(b).Some? {
      c := G.Letter(EscapeLetter(b).value);
    } else if b < 32 {
      var hex: bytes := [48, 48, HexDigit(b / 16), HexDigit(b % 16)];
      assert G.Digit(hex[0]) == Some(0) && G.Digit(hex[1]) == Some(0);
      assert G.Digit(hex[2]) == Some(b / 16) && G.Digit(hex[3]) == Some(b % 16);
      c := G.Unit(hex);
    } else {
      c := G.Plain(b);
    }
  }

  lemma {:induction false} CharsLaid(s: bytes) returns (cs: seq<G.Char>)
    requires IsCString(s)
    ensures CharsFor(s, cs) && G.WellString(cs) && G.SpellChars(cs) == Escape(s)
  {
    hide CharFor, G.WellChar, G.SpellChar, EscapeByte;
    if s == [] {
      cs := [];
    } else {
      assert s[0] in s;
      var c := CharLaid(s[0]);
      var more := CharsLaid(s[1..]);
      cs := [c] + more;
      assert cs[1..] == more;
      forall i | 0 <= i < |s| ensures CharFor(s[i], cs[i]) { if i > 0 { assert s[i] == s[1..][i - 1]; } }
    }
  }

  // ----- numbers -----

  lemma {:induction false} NaturalLaid(n: nat)
    ensures var t := PrintNat(n);
      && t != [] && G.Digits(t) && G.Natural(t) == n && (t[0] == 48 ==> t == [48]) && (n > 0 ==> t[0] != 48)
  {
    var t := PrintNat(n);
    if n >= 10 {
      NaturalLaid(n / 10);
      assert t[..|t| - 1] == PrintNat(n / 10);
    } else {
      assert G.Natural([]) == 0;
      assert t[..0] == [];
    }
  }

  lemma IntegerLaid(i: int) returns (n: G.Num)
    requires INT_MIN <= i <= INT_MAX
    ensures WholeFor(i, n) && G.WellNum(n) && G.SpellNum(n) == PrintInt(i)
  {
    hide PrintNat, G.Natural;
    var m: nat := if i < 0 then -i else i;
    NaturalLaid(m);
    IntWidth(m);
    n := G.Num(i < 0, PrintNat(m), None, None);
    assert PrintNat(m) + [] == PrintNat(m);
  }

  // ----- values -----

  lemma {:induction false} ValueLaid(v: Json, format: bool, depth: nat) returns (w: G.Value)
    requires Storable(v)
    ensures Laid(v, format, depth, w) && G.Well(w) && G.Spell(w) == Print(v, format, depth)
    decreases v, 1
  {
    hide CharsFor, WholeFor, Escape, PrintInt, G.SpellNum, G.WellNum, G.SpellChars, G.WellString, FloatPrefix,
        NumberValue;
    match v
    case Null => w := G.Word(Null);
    case False => w := G.Word(False);
    case True => w := G.Word(True);
    case Integer(i) =>
      var n := IntegerLaid(i);
      w := G.Number(n);
    case Real(text) =>
      var n := TokenWritten(text);
      w := G.Number(n);
    case String(s) =>
      var cs := CharsLaid(s);
      w := G.Text(cs);
    case Array(items) =>
      var ws := ListLaid(items, format, depth + 1, true);
      w := G.List([], ws);
      assert [] + (G.SpellItems(ws) + [CLOSE_ARRAY]) == G.SpellItems(ws) + [CLOSE_ARRAY];
    case Object(members) =>
      var es := RecordLaid(members, format, depth + 1);
      w := ObjectLaid(members, format, depth, es);
  }

  lemma {:induction false} ListLaid(items: seq<Json>, format: bool, depth: nat, first: bool) returns (ws: seq<G.Item>)
    requires StorableItems(items)
    ensures ItemsLaid(items, format, depth, first, ws) && G.WellItems(ws)
    ensures G.SpellItems(ws)
         == (if format && !first && items != [] then [SPACE] else []) + PrintItems(items, format, depth)
    decreases items, 0
  {
    hide ItemLaid, G.WellItem, G.SpellItem, Print, Storable;
    if items == [] {
      ws := [];
    } else {
      var w := ItemIsLaid(items[0], format, depth, first);
      var more := ListLaid(items[1..], format, depth, false);
      ws := [w] + more;
      assert ws[0] == w && ws[1..] == more;
      Joined3(if format && !first then [SPACE] else [], Print(items[0], format, depth), Separator(format),
        PrintItems(items[1..], format, depth));
      Commas(format, PrintItems(items[1..], format, depth));
    }
  }

  lemma Joined3(a: bytes, b: bytes, c: bytes, d: bytes)
    ensures a + (b + (c + d)) == (a + b) + (c + d)
  {
  }

  lemma Commas(format: bool, more: bytes)
    ensures [COMMA] + ((if format then [SPACE] else []) + more) == Separator(format) + more
  {
  }

  lemma {:induction false} ItemIsLaid(v: Json, format: bool, depth: nat, first: bool) returns (w: G.Item)
    requires Storable(v)
    ensures ItemLaid(v, format, depth, first, w) && G.WellItem(w)
    ensures G.SpellItem(w) == (if format && !first then [SPACE] else []) + Print(v, format, depth)
    decreases v, 2
  {
    hide Laid, G.Well, G.Spell, Print, Storable;
    var x := ValueLaid(v, format, depth);
    w := G.Item(if format && !first then [SPACE] else [], x, []);
    assert G.Spell(x) + [] == G.Spell(x);
  }

  lemma NewLineIs(depth: nat)
    ensures NewLine(depth) == [LF] + Tabs(depth) && G.Blank(NewLine(depth))
  {
  }

  /** Members end on the line of the closing brace. */
  function Rest(format: bool, depth: nat): bytes { if format && depth > 0 then Tabs(depth - 1) else [] }

  lemma {:induction false} RecordLaid(members: seq<Member>, format: bool, depth: nat) returns (es: seq<G.Entry>)
    requires StorableMembers(members) && depth > 0
    ensures MembersLaid(members, format, depth, es) && G.WellEntries(es)
    ensures members != [] ==>
      G.SpellEntries(es) == (if format then [LF] else []) + (PrintMembers(members, format, depth) + Rest(format, depth))
    decreases members, 0
  {
    hide MemberLaid, G.WellEntry, G.SpellEntry, Print, Storable, KeyText, MemberEnd, Rest;
    if members == [] {
      es := [];
    } else {
      var e := MemberIsLaid(members[0], format, depth, |members| == 1);
      var more := RecordLaid(members[1..], format, depth);
      es := [e] + more;
      assert es[0] == e && es[1..] == more;
      var k, v := KeyText(members[0].key, format, depth), Print(members[0].value, format, depth);
      MembersJoin(format, depth, k, v, |members| == 1, PrintMembers(members[1..], format, depth));
    }
  }

  lemma MembersJoin(format: bool, depth: nat, k: bytes, v: bytes, last: bool, more: bytes)
    requires last ==> more == []
    ensures var lf := if format then [LF] else [];
      var all := lf + ((k + (v + (MemberEnd(last, format) + more))) + Rest(format, depth));
      && (last ==> lf + (k + (v + (lf + Rest(format, depth)))) == all)
      && (!last ==> (lf + (k + v)) + ([COMMA] + (lf + (more + Rest(format, depth)))) == all)
  {
    hide Rest;
    var lf := if format then [LF] else [];
    if last {
      assert MemberEnd(last, format) + more == lf;
    } else {
      assert MemberEnd(last, format) == [COMMA] + lf;
    }
  }

  lemma {:induction false} MemberIsLaid(m: Member, format: bool, depth: nat, last: bool) returns (e: G.Entry)
    requires IsCString(m.key) && Storable(m.value) && depth > 0
    ensures MemberLaid(m, format, depth, last, e) && G.WellEntry(e)
    ensures var lf := if format then [LF] else [];
      var k, v := KeyText(m.key, format, depth), Print(m.value, format, depth);
      G.SpellEntry(e) == if last then lf + (k + (v + (lf + Rest(format, depth)))) else lf + (k + v)
    decreases m, 2
  {
    hide Laid, G.Well, G.Spell, Print, Storable, CharsFor, G.WellString, G.SpellChars, Escape, Tabs, NewLine, G.Blank;
    NewLineIs(depth);
    NewLineIs(depth - 1);
    NoBlank();
    var x := ValueLaid(m.value, format, depth);
    var key := CharsLaid(m.key);
    var before := if format then NewLine(depth) else [];
    var after := if format && last then NewLine(depth - 1) else [];
    var tab := if format then [TAB] else [];
    e := G.Entry(before, key, [], tab, x, after);
    assert G.SpellString(key) == PrintString(m.key);
    EntryJoin(format, depth, PrintString(m.key), Print(m.value, format, depth), last);
  }

  lemma NoBlank()
    ensures G.Blank([]) && G.Blank([TAB])
  {
  }

  lemma EntryJoin(format: bool, depth: nat, k: bytes, v: bytes, last: bool)
    requires depth > 0
    ensures var lf := if format then [LF] else [];
      var before := if format then [LF] + Tabs(depth) else [];
      var after := if format && last then [LF] + Tabs(depth - 1) else [];
      var key := Indent(format, depth) + (k + Colon(format));
      before + (k + ([] + ([COLON] + ((if format then [TAB] else []) + (v + after)))))
        == if last then lf + (key + (v + (lf + Rest(format, depth)))) else lf + (key + v)
  {
    hide Tabs;
    var none: bytes := [];
    if format {
      assert Colon(format) == [COLON] + [TAB];
      if last {
        assert [LF] + Rest(format, depth) == [LF] + Tabs(depth - 1);
      } else {
        assert v + none == v;
      }
    } else {
      assert v + none == v && none + Rest(format, depth) == none;
    }
  }

  lemma ObjectLaid(members: seq<Member>, format: bool, depth: nat, es: seq<G.Entry>) returns (w: G.Value)
    requires |es| == |members| && MembersLaid(members, format, depth + 1, es) && G.WellEntries(es)
    requires members != [] ==>
      G.SpellEntries(es)
        == (if format then [LF] else []) + (PrintMembers(members, format, depth + 1) + Rest(format, depth + 1))
    ensures Laid(Object(members), format, depth, w) && G.Well(w)
    ensures G.Spell(w) == Print(Object(members), format, depth)
  {
    hide MembersLaid, G.WellEntries, G.SpellEntries, PrintMembers, NewLine, Tabs, G.Blank;
    NewLineIs(depth);
    NoBlank();
    w := G.Record(if format && members == [] then NewLine(depth) else [], es);
    BracesJoin(format, depth, PrintMembers(members, format, depth + 1));
    if members == [] {
      assert es == [];
      NothingPrinted(format, depth + 1);
    }
  }

  lemma NothingPrinted(format: bool, depth: nat)
    ensures PrintMembers([], format, depth) == [] && G.SpellEntries([]) == []
  {
  }

  lemma BracesJoin(format: bool, depth: nat, ms: bytes)
    ensures var lf := if format then [LF] else [];
      [OPEN_OBJECT] + ([] + ((lf + (ms + Rest(format, depth + 1))) + [CLOSE_OBJECT]))
        == Opening(format) + (ms + (Indent(format, depth) + [CLOSE_OBJECT]))
    ensures var open := if format then [LF] + Tabs(depth) else [];
      [OPEN_OBJECT] + (open + ([] + [CLOSE_OBJECT]))
          == Opening(format) + ([] + (Indent(format, depth) + [CLOSE_OBJECT]))
  {
    hide Tabs;
  }

  /** What is printed is laid out so, every byte of it. */
  lemma PrintedIsLaid(v: Json, format: bool) returns (w: G.Value)
    requires Storable(v)
    ensures Laid(v, format, 0, w) && G.Spell(w) == Print(v, format, 0)
  {
    hide Laid, Print, G.Spell, Storable;
    w := ValueLaid(v, format, 0);
  }
}
