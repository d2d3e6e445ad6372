/** What the converters between cJSON nodes and Object trees mean, node by node, and which objects survive both. */
module JsonMeaning {
  import opened Bytes
  import opened TreeSpec
  import opened JsonSpec
  import L = JsonLaws

  /** The double is this whole number of at most 53 bits, of either sign if it is zero. */
  predicate IsWhole(d: Num, i: int) {
    -9007199254740992 <= i <= 9007199254740992 && (d == Finite(i as real) || (i == 0 && d == NegativeZero))
  }

  ghost predicate NumberMeans(d: Num, p: Plain) {
    if exists i :: IsWhole(d, i) then p.Integer? && IsWhole(d, p.i) else p == Floating(d)
  }

  /** The object that a cJSON node stands for. */
  ghost predicate Means(j: JNode, t: Tree)
    decreases j, 1
  {
    match j
    case JNull => t == Leaf(Nil)
    case JBool(b) => t == Leaf(Boolean(b))
    case JNumber(d) => t.Leaf? && NumberMeans(d, t.p)
    case JString(s) => t == Text(Some(s))
    case JList(table, kids) => t.Node? && t.table == table && KidsMean(kids, t.entries)
  }

  ghost predicate KidsMean(kids: seq<Kid>, entries: seq<Entry>)
    decreases kids, 0
  {
    |entries| == |kids|
    && (kids == [] || (KidMeans(kids[0], entries[0]) && KidsMean(kids[1..], entries[1..])))
  }

  ghost predicate KidMeans(k: Kid, e: Entry)
    decreases k, 2
  {
    e.key == k.key && Means(k.node, e.value)
  }

  lemma NumberIs(d: Num, p: Plain)
    ensures NumberMeans(d, p) <==> p == NumberOf(d)
  {
    match d
    case Finite(r) =>
      if r == r.Floor as real && -(EXACT_INT_MAX as real) <= r <= EXACT_INT_MAX as real {
        assert IsWhole(d, r.Floor);
      }
    case NegativeZero => assert IsWhole(d, 0);
    case _ =>
  }

  lemma {:induction false} ConvertIs(j: JNode, room: nat, t: Tree)
    requires Nesting(j) <= room
    ensures Convert(j, room) == (true, t) <==> Means(j, t)
    decreases j, 1
  {
    hide NumberMeans, NumberOf;
    match j
    case JNumber(d) => if t.Leaf? { NumberIs(d, t.p); }
    case JList(table, kids) => if t.Node? { KidsAre(kids, room - 1, t.entries); }
    case _ =>
  }

  lemma {:induction false} KidsAre(kids: seq<Kid>, room: nat, entries: seq<Entry>)
    requires NestingKids(kids) <= room
    ensures ConvertKids(kids, room) == (true, entries) <==> KidsMean(kids, entries)
    decreases kids, 0
  {
    hide ConvertKid, KidMeans, Blank;
    if kids != [] {
      L.KidConvertsIff(kids[0], room);
      L.KidsConvertIff(kids[1..], room);
      var e, rest := ConvertKid(kids[0], room).1, ConvertKids(kids[1..], room).1;
      assert ([e] + rest)[0] == e && ([e] + rest)[1..] == rest;
      if entries != [] {
        KidIs(kids[0], room, entries[0]);
        KidsAre(kids[1..], room, entries[1..]);
        assert entries == [entries[0]] + entries[1..];
      }
    }
  }

  lemma {:induction false} KidIs(k: Kid, room: nat, e: Entry)
    requires NestingKid(k) <= room
    ensures ConvertKid(k, room) == (true, e) <==> KidMeans(k, e)
    decreases k, 2
  {
    ConvertIs(k.node, room, e.value);
  }

  /** cJSON trees of at most 32 nested containers convert, to the object that they stand for; no others do. */
  lemma ConvertsIff(j: JNode, t: Tree)
    ensures Convert(j, 32) == (true, t) <==> Nesting(j) <= 32 && Means(j, t)
  {
    hide Convert, Nesting, Means;
    L.ConvertsIff(j, 32);
    if Nesting(j) <= 32 { ConvertIs(j, 32, t); }
  }

  // ----- the way back -----

  /** A C string of a string: what precedes its first NUL; empty for one without data. */
  ghost predicate CutAs(s: Option<bytes>, c: bytes) {
    if s.None? then c == []
    else |c| <= |s.value| && c == s.value[..|c|] && NUL !in c && (|c| < |s.value| ==> s.value[|c|] == NUL)
  }

  /** The cJSON node that an object is written as; sessions are null. */
  ghost predicate WrittenAs(t: Tree, j: JNode)
    decreases t, 1
  {
    match t
    case Leaf(Nil) => j == JNull
    case Leaf(Session(_)) => j == JNull
    case Leaf(Boolean(b)) => j == JBool(b)
    case Leaf(Integer(i)) => j == JNumber(Finite(i as real))
    case Leaf(Floating(d)) => j == JNumber(d)
    case Text(s) => j.JString? && CutAs(s, j.s)
    case Node(table, entries) => j.JList? && j.table == table && AllWrittenAs(entries, table, j.kids)
  }

  ghost predicate AllWrittenAs(entries: seq<Entry>, table: bool, kids: seq<Kid>)
    decreases entries, 0
  {
    |kids| == |entries|
    && (entries == [] || (EntryWrittenAs(entries[0], table, kids[0]) && AllWrittenAs(entries[1..], table, kids[1..])))
  }

  ghost predicate EntryWrittenAs(e: Entry, table: bool, k: Kid)
    decreases e, 2
  {
    && (if table then k.key.Some? && CutAs(e.key, k.key.value) else k.key == None)
    && WrittenAs(e.value, k.node)
  }

  lemma CutIs(s: Option<bytes>, c: bytes)
    ensures CutAs(s, c) <==> c == CText(s)
  {
    if s.Some? {
      var n := Find(s.value, NUL);
      if CutAs(s, c) {
        assert forall k :: 0 <= k < |c| ==> c[k] == s.value[k] && c[k] in c;
      }
    }
  }

  lemma {:induction false} BackIs(t: Tree, j: JNode)
    ensures Back(t) == j <==> WrittenAs(t, j)
    decreases t, 1
  {
    hide CutAs, CText;
    match t
    case Leaf(_) =>
    case Text(s) => if j.JString? { CutIs(s, j.s); }
    case Node(table, entries) => if j.JList? { AllAre(entries, table, j.kids); }
  }

  lemma {:induction false} AllAre(entries: seq<Entry>, table: bool, kids: seq<Kid>)
    ensures BackAll(entries, table) == kids <==> AllWrittenAs(entries, table, kids)
    decreases entries, 0
  {
    hide BackEntry, EntryWrittenAs;
    if entries != [] {
      var k, rest := BackEntry(entries[0], table), BackAll(entries[1..], table);
      assert ([k] + rest)[0] == k && ([k] + rest)[1..] == rest;
      if kids != [] {
        EntryIs(entries[0], table, kids[0]);
        AllAre(entries[1..], table, kids[1..]);
        assert kids == [kids[0]] + kids[1..];
      }
    }
  }

  lemma {:induction false} EntryIs(e: Entry, table: bool, k: Kid)
    ensures BackEntry(e, table) == k <==> EntryWrittenAs(e, table, k)
    decreases e, 2
  {
    hide CutAs, CText;
    BackIs(e.value, k.node);
    if table && k.key.Some? { CutIs(e.key, k.key.value); }
  }

  // ----- there and back -----

  /** Nothing is lost: no session, integers of 53 bits, doubles that are no such integer, C strings, keys where due. */
  ghost predicate Survives(t: Tree)
    decreases t, 1
  {
    match t
    case Leaf(Session(_)) => false
    case Leaf(Integer(i)) => -9007199254740992 <= i <= 9007199254740992
    case Leaf(Floating(d)) => forall i :: !IsWhole(d, i)
    case Leaf(_) => true
    case Text(s) => s.Some? && NUL !in s.value
    case Node(table, entries) => AllSurvive(entries, table)
  }

  ghost predicate AllSurvive(entries: seq<Entry>, table: bool)
    decreases entries, 0
  {
    entries == [] || (EntrySurvives(entries[0], table) && AllSurvive(entries[1..], table))
  }

  ghost predicate EntrySurvives(e: Entry, table: bool)
    decreases e, 2
  {
    (if table then e.key.Some? && NUL !in e.key.value else e.key == None) && Survives(e.value)
  }

  lemma CutLosesNothing(s: Option<bytes>)
    ensures Some(CText(s)) == s <==> s.Some? && NUL !in s.value
  {
    if s.Some? {
      var n := Find(s.value, NUL);
      if n < |s.value| { assert s.value[n] in s.value; }
      if n == |s.value| { assert s.value[..n] == s.value; }
    }
  }

  lemma {:induction false} SurvivesIff(t: Tree)
    ensures Means(Back(t), t) <==> Survives(t)
    decreases t, 1
  {
    hide CText;
    match t
    case Leaf(p) => PlainSurvives(p);
    case Text(s) => CutLosesNothing(s);
    case Node(table, entries) => AllSurviveIff(entries, table);
  }

  lemma PlainSurvives(p: Plain)
    ensures Means(BackPlain(p), Leaf(p)) <==> Survives(Leaf(p))
  {
    match p
    case Integer(i) =>
      if -9007199254740992 <= i <= 9007199254740992 {
        assert IsWhole(Finite(i as real), i);
      }
    case _ =>
  }

  lemma {:induction false} AllSurviveIff(entries: seq<Entry>, table: bool)
    ensures KidsMean(BackAll(entries, table), entries) <==> AllSurvive(entries, table)
    decreases entries, 0
  {
    hide BackEntry, KidMeans, EntrySurvives;
    if entries != [] {
      var k, rest := BackEntry(entries[0], table), BackAll(entries[1..], table);
      assert ([k] + rest)[0] == k && ([k] + rest)[1..] == rest;
      EntrySurvivesIff(entries[0], table);
      AllSurviveIff(entries[1..], table);
    }
  }

  lemma {:induction false} EntrySurvivesIff(e: Entry, table: bool)
    ensures KidMeans(BackEntry(e, table), e) <==> EntrySurvives(e, table)
    decreases e, 2
  {
    hide CText;
    CutLosesNothing(e.key);
    SurvivesIff(e.value);
  }

  lemma {:induction false} BackNests(t: Tree)
    ensures Nesting(Back(t)) == Depth(t)
    decreases t, 1
  {
    match t
    case Node(table, entries) => AllNest(entries, table);
    case _ =>
  }

  lemma {:induction false} AllNest(entries: seq<Entry>, table: bool)
    ensures NestingKids(BackAll(entries, table)) == DepthFrom(entries)
    decreases entries, 0
  {
    if entries != [] {
      var k, rest := BackEntry(entries[0], table), BackAll(entries[1..], table);
      assert ([k] + rest)[0] == k && ([k] + rest)[1..] == rest;
      EntryNests(entries[0], table);
      AllNest(entries[1..], table);
    }
  }

  lemma {:induction false} EntryNests(e: Entry, table: bool)
    ensures NestingKid(BackEntry(e, table)) == DepthEntry(e)
    decreases e, 2
  {
    BackNests(e.value);
  }

  /** An object comes back from cJSON as itself exactly when at most 32 containers are nested and nothing is lost. */
  lemma ObjectRoundTrip(t: Tree)
    ensures Convert(Back(t), 32) == (true, t) <==> Depth(t) <= 32 && Survives(t)
  {
    hide Convert, Back, Nesting, Means, Survives, Depth;
    ConvertsIff(Back(t), t);
    SurvivesIff(t);
    BackNests(t);
  }
}
