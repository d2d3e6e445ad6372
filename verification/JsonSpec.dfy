/**
 The converters of src/mua/json.c between cJSON nodes and Object trees, as recursive functions: the trees they make and
 the memory that one takes.
 */
module JsonSpec {
  import opened Bytes
  import opened TreeSpec

  /** A cJSON node; the children of an array have no key. */
  datatype JNode =
    | JNull
    | JBool(b: bool)
    | JNumber(d: Num)
    | JString(s: bytes)
    | JList(table: bool, kids: seq<Kid>)

  datatype Kid = Kid(key: Option<bytes>, node: JNode)

  /** MUA_EXACT_INT_MAX: 2^53. */
  const EXACT_INT_MAX := 9007199254740992

  /** Strings and keys are C strings, and exactly the children of an object have keys. */
  predicate WellFormed(j: JNode)
    decreases j, 1
  {
    match j
    case JString(s) => NUL !in s
    case JList(table, kids) => WellFormedKids(kids, table)
    case _ => true
  }

  predicate WellFormedKids(kids: seq<Kid>, table: bool)
    decreases kids, 0
  {
    kids == [] || (WellFormedKid(kids[0], table) && WellFormedKids(kids[1..], table))
  }

  predicate WellFormedKid(k: Kid, table: bool)
    decreases k, 2
  {
    k.key.Some? == table && (table ==> NUL !in k.key.value) && WellFormed(k.node)
  }

  function Nesting(j: JNode): nat
    decreases j, 1
  {
    match j
    case JList(_, kids) => 1 + NestingKids(kids)
    case _ => 0
  }

  function NestingKids(kids: seq<Kid>): nat
    decreases kids, 0
  {
    if kids == [] then 0 else Max(NestingKid(kids[0]), NestingKids(kids[1..]))
  }

  function NestingKid(k: Kid): nat
    decreases k, 2
  {
    Nesting(k.node)
  }

  // ----- cjson_to_object: the tree -----

  /** A double that is an exact integer becomes one, and loses the sign of its zero. */
  function NumberOf(d: Num): Plain {
    match d
    case NegativeZero => Integer(0)
    case Finite(r) =>
      if -(EXACT_INT_MAX as real) <= r <= EXACT_INT_MAX as real && r == r.Floor as real then Integer(r.Floor)
      else Floating(d)
    case _ => Floating(d)
  }

  /** The elements of a fresh store: keys, and Nil for the values to come. */
  function Blank(kids: seq<Kid>): (entries: seq<Entry>)
    ensures |entries| == |kids|
  {
    if kids == [] then [] else [Entry(kids[0].key, Leaf(Nil))] + Blank(kids[1..])
  }

  /** The tree as far as it is built when the first container past the depth cap turns up, and whether none does. */
  function Convert(j: JNode, room: nat): (r: (bool, Tree))
    ensures r.1.Node? ==> j.JList?
    decreases j, 1
  {
    match j
    case JNull => (true, Leaf(Nil))
    case JBool(b) => (true, Leaf(Boolean(b)))
    case JNumber(d) => (true, Leaf(NumberOf(d)))
    case JString(s) => (true, Text(Some(s)))
    case JList(table, kids) =>
      if room == 0 then (false, Leaf(Nil))
      else
        var (ok, entries) := ConvertKids(kids, room - 1);
        (ok, Node(table, entries))
  }

  function ConvertKids(kids: seq<Kid>, room: nat): (r: (bool, seq<Entry>))
    ensures |r.1| == |kids|
    decreases kids, 0
  {
    if kids == [] then (true, [])
    else
      var (ok, e) := ConvertKid(kids[0], room);
      if !ok then (false, [e] + Blank(kids[1..]))
      else
        var (all, entries) := ConvertKids(kids[1..], room);
        (all, [e] + entries)
  }

  function ConvertKid(k: Kid, room: nat): (bool, Entry)
    decreases k, 2
  {
    var (ok, t) := Convert(k.node, room);
    (ok, Entry(k.key, t))
  }

  // ----- cjson_to_object: the memory -----

  /** The keys of a fresh store, from the `i`th element on. */
  function DupKeys(kids: seq<Kid>, ptr: nat, i: nat, m: Mem): Mem
    decreases |kids|
  {
    if kids == [] then m
    else
      var (after, key) := Dup(kids[0].key, m);
      DupKeys(kids[1..], ptr, i + 1, PutKey(after, ptr, i, key))
  }

  /** cjson_node_init. */
  function NodeInit(j: JNode, m: Mem): (Mem, Cell) {
    match j
    case JNull => (m, Value(Nil))
    case JBool(b) => (m, Value(Boolean(b)))
    case JNumber(d) => (m, Value(NumberOf(d)))
    case JString(s) => var (after, ref) := Dup(Some(s), m); (after, StrCell(ref))
    case JList(table, kids) =>
      if kids == [] then (m, NodeCell(table, 0, 0))
      else
        var (after, p) := Alloc(m, SlotsBlock(NilSlots(|kids|)));
        (DupKeys(kids, p, 0, after), NodeCell(table, p, |kids|))
  }

  /** Fills the store at `ptr` from its `i`th element on; false when a container past the cap stops it. */
  function FillKids(kids: seq<Kid>, ptr: nat, i: nat, room: nat, m: Mem): (bool, Mem)
    decreases kids, 0
  {
    if kids == [] then (true, m)
    else
      var (ok, after) := FillKid(kids[0], ptr, i, room, m);
      if ok then FillKids(kids[1..], ptr, i + 1, room, after) else (false, after)
  }

  function FillKid(k: Kid, ptr: nat, i: nat, room: nat, m: Mem): (bool, Mem)
    decreases k, 2
  {
    if k.node.JList? && room == 0 then (false, m)
    else
      var (after, cell) := NodeInit(k.node, m);
      FillNode(k.node, cell, room, PutValue(after, ptr, i, cell))
  }

  /** The cell of a node that is not filled yet holds this. */
  function Unfilled(j: JNode): Tree {
    match j
    case JList(table, kids) => Node(table, Blank(kids))
    case _ => Convert(j, 0).1
  }

  function FillNode(j: JNode, cell: Cell, room: nat, m: Mem): (bool, Mem)
    requires j.JList? ==> room > 0
    decreases j, 1
  {
    match j
    case JList(_, kids) => FillKids(kids, if cell.NodeCell? then cell.ptr else 0, 0, room - 1, m)
    case _ => (true, m)
  }

  /** cjson_to_object up to the release of what a rejection leaves. */
  function Build(j: JNode, m: Mem): (bool, Mem, Cell) {
    var (after, cell) := NodeInit(j, m);
    var (ok, built) := FillNode(j, cell, DEPTH_CAP, after);
    (ok, built, cell)
  }

  // ----- object_to_cjson -----

  /** xstrndup into a C string. */
  function CText(s: Option<bytes>): bytes {
    match s case None => [] case Some(t) => t[..Find(t, NUL)]
  }

  function BackPlain(p: Plain): JNode {
    match p
    case Boolean(b) => JBool(b)
    case Integer(i) => JNumber(Finite(i as real))
    case Floating(d) => JNumber(d)
    case Nil => JNull
    case Session(_) => JNull
  }

  function Back(t: Tree): JNode
    decreases t, 1
  {
    match t
    case Leaf(p) => BackPlain(p)
    case Text(s) => JString(CText(s))
    case Node(table, entries) => JList(table, BackAll(entries, table))
  }

  function BackAll(entries: seq<Entry>, table: bool): (kids: seq<Kid>)
    ensures |kids| == |entries|
    decreases entries, 0
  {
    if entries == [] then [] else [BackEntry(entries[0], table)] + BackAll(entries[1..], table)
  }

  function BackEntry(e: Entry, table: bool): Kid
    decreases e, 2
  {
    Kid(if table then Some(CText(e.key)) else None, Back(e.value))
  }
}
