/** The header, nodes and values of a B-tree column as the bytes of slots, and the tree that slots hold. */
module BTreeSlots {
  import opened Keys
  import opened Bytes
  import opened Entries
  import opened Trees
  import opened BTrees
  import opened BTreeTables
  import opened Databases
  import NodeCodec
  import Rebalancing
  import Words
  import I = IndexEntries
  import R = Records
  import C = Commits
  import Recovery

  // Bytes.

  /**
   * What is written for an entry. Nothing tells a value from a node: it is for the reader to know which it is after.
   */
  function BytesOf(b: Blob): R.Data {
    match b
    case Reserved => []
    case Header(root, depth) => LE(root, 8) + LE(depth, 4)
    case NodeBlob(seps, kids) => if |kids| == |seps| + 1 then NodeCodec.Encode(seps, kids) else []
    case ValueBlob(bytes) => bytes
  }

  /** An entry that can be read back, by a reader who knows its kind. */
  predicate Storable(b: Blob) {
    match b
    case Header(root, depth) => root < U64 && depth < U32
    case NodeBlob(seps, kids) => |kids| == |seps| + 1 && |seps| <= ORDER && NodeCodec.Encodable(seps, kids)
    case _ => true
  }

  /** Numbers fit their fields. */
  predicate FieldsFit(b: Blob) {
    match b
    case Header(root, depth) => root < U64 && depth < U32
    case NodeBlob(seps, kids) =>
      && (forall i :: 0 <= i < |seps| ==> seps[i].at < U64 && |seps[i].key| < U32)
      && (forall i :: 0 <= i < |kids| ==> kids[i].Some? ==> kids[i].value < U64)
    case _ => true
  }

  predicate AllFit(c: Cells) {
    forall a :: a in c ==> FieldsFit(c[a])
  }

  /** That is all a node of a stored tree needs to be read back: it has room, and its addresses are not 0. */
  lemma NodeStorable(c: Cells, t: Tree, h: nat)
    requires AllFit(c) && 0 in c && c[0] == Reserved && h > 0 && Stored(c, t) && Shape(t, h, 0)
    ensures Storable(NodeBlob(Recs(t.seps), Ptrs(t.kids)))
  {
    var seps, kids := Recs(t.seps), Ptrs(t.kids);
    assert FieldsFit(c[t.addr]);
    forall i | 0 <= i < |kids| && kids[i].Some?
      ensures kids[i].value != 0
    {
      assert Stored(c, t.kids[i]);
    }
  }

  /** The root and the depth; neither where there is no header. */
  function ReadHeader(d: R.Data): (Address, nat) {
    if |d| < 12 then (0, 0) else (UnLE(d[..8]), UnLE(d[8..12]))
  }

  lemma HeaderReads(root: Address, depth: nat)
    requires Storable(Header(root, depth))
    ensures ReadHeader(BytesOf(Header(root, depth))) == (root, depth)
  {
    hide LE, UnLE;
    var d := BytesOf(Header(root, depth));
    Widths();
    UnLEofLE(root, 8);
    UnLEofLE(depth, 4);
    assert d[..8] == LE(root, 8) && d[8..12] == LE(depth, 4);
  }

  /** The header is twelve bytes: eight of the root's address and four of the depth. */
  lemma HeaderLayout(root: Address, depth: nat)
    requires root < U64 && depth < U32
    ensures var d := BytesOf(Header(root, depth)); |d| == 12 && UnLE(d[..8]) == root && UnLE(d[8..]) == depth
  {
    HeaderReads(root, depth);
    assert BytesOf(Header(root, depth))[8..12] == BytesOf(Header(root, depth))[8..];
  }

  lemma NodeReads(seps: seq<SepRec>, kids: seq<Option<Address>>)
    requires Storable(NodeBlob(seps, kids))
    ensures NodeCodec.Decode(BytesOf(NodeBlob(seps, kids)), ORDER) == Some(NodeBlob(seps, kids))
  {
    NodeCodec.DecodeOfEncode(seps, kids, ORDER);
  }

  /** Two entries of a kind with the same bytes are the same. */
  lemma BytesDecide(a: Blob, b: Blob)
    requires Storable(a) && Storable(b) && BytesOf(a) == BytesOf(b)
    requires (a.Header? && b.Header?) || (a.NodeBlob? && b.NodeBlob?) || (a.ValueBlob? && b.ValueBlob?)
    ensures a == b
  {
    hide BytesOf, ReadHeader, NodeCodec.Decode, NodeCodec.Encodable, LE;
    if a.Header? {
      HeaderReads(a.root, a.depth);
      HeaderReads(b.root, b.depth);
    } else if a.NodeBlob? {
      NodeReads(a.seps, a.kids);
      NodeReads(b.seps, b.kids);
    } else {
      ValueBytes(a.bytes);
      ValueBytes(b.bytes);
    }
  }

  lemma ValueBytes(v: Value)
    ensures BytesOf(ValueBlob(v)) == v
  {
  }

  /** But a value can have the bytes of a node: eight zeros are an empty leaf. */
  lemma ValueLooksLikeNode()
    ensures exists v, seps, kids ::
      Storable(NodeBlob(seps, kids)) && BytesOf(ValueBlob(v)) == BytesOf(NodeBlob(seps, kids))
  {
    var v, kids: seq<Option<Address>> := LE(0, 8), [None];
    assert NodeCodec.Encode([], kids) == v + [] == v;
    assert Storable(NodeBlob([], kids)) && BytesOf(ValueBlob(v)) == BytesOf(NodeBlob([], kids));
  }

  // Slots.

  /** The low eight bits of an address are its size tier, the others its offset. */
  function SlotFor(a: Address): R.SlotId {
    R.SlotId(a % 256, a / 256)
  }

  /**
   * The slot of an address is the one whose table and offset the address is made of; the header is in slot 1 of table
   * 0.
   */
  lemma SlotOfAddress(offset: nat, tier: byte)
    requires offset < Words.Pow2(56)
    ensures SlotFor(I.NewAddress(offset, tier)) == R.SlotId(tier as nat, offset) && HEADER_ADDRESS == I.NewAddress(1, 0)
  {
    hide I.NewAddress, Words.Pow2;
    I.AddressParts(offset, tier);
    SmallOffset();
    I.AddressParts(1, 0);
  }

  lemma SmallOffset()
    ensures 1 < Words.Pow2(56)
  {
    I.Wider(1, 56);
    assert Words.Pow2(1) == 2 * Words.Pow2(0);
  }

  lemma SlotInjective(a: Address, b: Address)
    requires SlotFor(a) == SlotFor(b)
    ensures a == b
  {
    assert a == 256 * (a / 256) + a % 256 && b == 256 * (b / 256) + b % 256;
  }

  /** The view has these entries at their addresses. Address 0 is no entry. */
  ghost predicate Shows(v: R.View, c: Cells) {
    forall a :: a in c && a != 0 ==> v(R.Slot(SlotFor(a))) == BytesOf(c[a])
  }

  /** The entries are those of a column, its header and the tree below it. */
  ghost predicate Column(c: Cells, t: Tree) {
    && AllFit(c) && 0 in c && c[0] == Reserved
    && HEADER_ADDRESS in c && c[HEADER_ADDRESS].Header?
    && Rooted(c, RootOf(c[HEADER_ADDRESS].root), c[HEADER_ADDRESS].depth, t)
  }

  ghost predicate HoldsColumn(v: R.View, c: Cells, t: Tree) {
    Shows(v, c) && Column(c, t)
  }

  ghost predicate HoldsSome(v: R.View) {
    exists c, t :: HoldsColumn(v, c, t)
  }

  /** The keys and values of the tree that the view has, if it has one. */
  ghost function ContentsIn(v: R.View): map<Key, Value> {
    if HoldsSome(v) then
      var c, t :| HoldsColumn(v, c, t);
      MapOf(InOrder(t))
    else map[]
  }

  ghost const LookupTree: R.Reader := (v: R.View) => ContentsIn(v)

  /** What the slots have below an address is one tree. */
  lemma {:induction false} SameTree(v: R.View, c: Cells, d: Cells, t: Tree, u: Tree, h: nat)
    requires Shows(v, c) && AllFit(c) && 0 in c && c[0] == Reserved && Stored(c, t) && Shape(t, h, 0)
    requires Shows(v, d) && AllFit(d) && 0 in d && d[0] == Reserved && Stored(d, u) && Shape(u, h, 0)
    requires Ptr(t) == Ptr(u)
    ensures t == u
    decreases h
  {
    hide Shows, AllFit;
    if h > 0 {
      SameNode(v, c, d, t, u, h);
      forall i | 0 <= i < |t.seps|
        ensures t.seps[i] == u.seps[i]
      {
        SameValue(v, c, d, t, u, i);
      }
      forall i | 0 <= i < |t.kids|
        ensures t.kids[i] == u.kids[i]
      {
        assert Ptrs(t.kids)[i] == Ptr(t.kids[i]) && Ptrs(u.kids)[i] == Ptr(u.kids[i]);
        Lower(t.kids[i], h - 1);
        Lower(u.kids[i], h - 1);
        SameTree(v, c, d, t.kids[i], u.kids[i], h - 1);
      }
    }
  }

  lemma Lower(t: Tree, h: nat)
    requires Shape(t, h, MIDDLE)
    ensures Shape(t, h, 0)
  {
    if h > 0 {
      Rebalancing.ShapeLower(t, h, MIDDLE, 0);
    }
  }

  lemma SameNode(v: R.View, c: Cells, d: Cells, t: Tree, u: Tree, h: nat)
    requires Shows(v, c) && AllFit(c) && 0 in c && c[0] == Reserved && Stored(c, t) && h > 0 && Shape(t, h, 0)
    requires Shows(v, d) && AllFit(d) && 0 in d && d[0] == Reserved && Stored(d, u) && Shape(u, h, 0)
    requires t.addr == u.addr
    ensures Recs(t.seps) == Recs(u.seps) && Ptrs(t.kids) == Ptrs(u.kids)
  {
    hide BytesOf, Storable, SlotFor, Recs, Ptrs, FieldsFit;
    NodeStorable(c, t, h);
    NodeStorable(d, u, h);
    BytesDecide(NodeBlob(Recs(t.seps), Ptrs(t.kids)), NodeBlob(Recs(u.seps), Ptrs(u.kids)));
  }

  lemma SameValue(v: R.View, c: Cells, d: Cells, t: Tree, u: Tree, i: nat)
    requires Shows(v, c) && 0 in c && c[0] == Reserved && t.Branch? && Stored(c, t)
    requires Shows(v, d) && 0 in d && d[0] == Reserved && u.Branch? && Stored(d, u)
    requires Recs(t.seps) == Recs(u.seps) && i < |t.seps|
    ensures t.seps[i] == u.seps[i]
  {
    hide BytesOf, SlotFor;
    assert Recs(t.seps)[i] == Rec(t.seps[i]) && Recs(u.seps)[i] == Rec(u.seps[i]);
    ValueBytes(t.seps[i].value);
    ValueBytes(u.seps[i].value);
  }

  /** Slots hold no more than one column. */
  lemma OneColumn(v: R.View, c: Cells, t: Tree, d: Cells, u: Tree)
    requires HoldsColumn(v, c, t) && HoldsColumn(v, d, u)
    ensures t == u
  {
    hide InOrder, Own, Sorted, Stored, NoDup, Storable, BytesOf, SlotFor, Shape;
    assert FieldsFit(c[HEADER_ADDRESS]) && FieldsFit(d[HEADER_ADDRESS]);
    BytesDecide(c[HEADER_ADDRESS], d[HEADER_ADDRESS]) by { HeaderStorable(c[HEADER_ADDRESS], d[HEADER_ADDRESS]); }
    var root, h := RootOf(c[HEADER_ADDRESS].root), c[HEADER_ADDRESS].depth + 1;
    if root.Some? {
      Rebalancing.ShapeLower(t, h, RootLo(h), 0);
      Rebalancing.ShapeLower(u, h, RootLo(h), 0);
      SameTree(v, c, d, t, u, h);
    }
  }

  lemma HeaderStorable(a: Blob, b: Blob)
    requires a.Header? && b.Header? && FieldsFit(a) && FieldsFit(b)
    ensures Storable(a) && Storable(b)
  {
  }

  /** A view that has a column is read as that column's contents. */
  lemma ContentsAre(v: R.View, c: Cells, t: Tree)
    requires HoldsColumn(v, c, t)
    ensures LookupTree(v) == MapOf(InOrder(t))
  {
    hide InOrder, MapOf, HoldsColumn;
    assert HoldsSome(v);
    var d, u :| HoldsColumn(v, d, u) && ContentsIn(v) == MapOf(InOrder(u));
    OneColumn(v, c, t, d, u);
  }

  ghost predicate SameSlots(f: R.View, g: R.View) {
    forall s: R.SlotId :: f(R.Slot(s)) == g(R.Slot(s))
  }

  lemma SlotsHold(f: R.View, g: R.View, c: Cells, t: Tree)
    requires SameSlots(f, g) && HoldsColumn(f, c, t)
    ensures HoldsColumn(g, c, t)
  {
    hide Column, SlotFor, BytesOf;
  }

  /** Reading a tree depends on nothing but the slots. */
  lemma SlotsDecide(f: R.View, g: R.View)
    requires SameSlots(f, g)
    ensures LookupTree(f) == LookupTree(g)
  {
    hide InOrder, MapOf, Column, Shows;
    if c, t :| HoldsColumn(f, c, t) {
      SlotsHold(f, g, c, t);
      ContentsAre(f, c, t);
      ContentsAre(g, c, t);
    } else if c, t :| HoldsColumn(g, c, t) {
      SlotsHold(g, f, c, t);
      assert false;
    }
  }

  /** So it is a reader that the pipeline admits, and one that a crash cannot make lose index entries. */
  lemma LookupRespects()
    ensures R.Respects(LookupTree) && forall tables :: Recovery.Ignores(LookupTree, tables)
  {
    hide LookupTree;
    forall tables, f, g | Recovery.AlikeBut(f, g, tables)
      ensures LookupTree(f) == LookupTree(g)
    {
      ButSlots(f, g, tables);
      SlotsDecide(f, g);
    }
    forall f, g | R.Alike(f, g)
      ensures LookupTree(f) == LookupTree(g)
    {
      assert Recovery.AlikeBut(f, g, {});
    }
  }

  lemma ButSlots(f: R.View, g: R.View, tables: set<nat>)
    requires Recovery.AlikeBut(f, g, tables)
    ensures SameSlots(f, g)
  {
    forall s: R.SlotId
      ensures f(R.Slot(s)) == g(R.Slot(s))
    {
      assert R.InRange(R.Slot(s));
    }
  }

  // Planning a record.

  /** The slots of what differs. What is gone from the column is not read any more, whatever its slot says. */
  function SlotsOf(c: Cells, d: Cells): (m: map<R.SlotId, R.Data>)
    ensures forall a :: a in d && !(a in c && c[a] == d[a]) ==> SlotFor(a) in m
    ensures forall a :: a in d && SlotFor(a) in m ==> m[SlotFor(a)] == BytesOf(d[a])
  {
    assert forall a, b :: SlotFor(a) == SlotFor(b) ==> a == b by { AllInjective(); }
    map a | a in d && !(a in c && c[a] == d[a]) :: SlotFor(a) := BytesOf(d[a])
  }

  lemma AllInjective()
    ensures forall a, b :: SlotFor(a) == SlotFor(b) ==> a == b
  {
    hide SlotFor;
    forall a, b | SlotFor(a) == SlotFor(b)
      ensures a == b
    {
      SlotInjective(a, b);
    }
  }

  /** The record takes the tables from the one set of entries to the other. */
  lemma RecordShows(t: R.Tables, c: Cells, d: Cells, id: nat)
    requires Shows(R.StateOf(t), c)
    ensures var r := R.Record(id, SlotsOf(c, d), map[]);
      R.Fresh(t, r) && Shows(R.StateOf(R.Enact(t, r)), d)
  {
    hide R.Enact, R.At, SlotFor, BytesOf;
    var r := R.Record(id, SlotsOf(c, d), map[]);
    forall a | a in d && a != 0
      ensures R.At(R.Enact(t, r), R.Slot(SlotFor(a))) == BytesOf(d[a])
    {
      R.AtEnact(t, r, R.Slot(SlotFor(a)));
      if SlotFor(a) !in r.slots {
        assert R.StateOf(t)(R.Slot(SlotFor(a))) == BytesOf(c[a]);
      }
    }
  }

  /** A batch written to the tree is carried out by the record of what differs. */
  lemma BTreeCarries(tables: R.Tables, c: Cells, t: Tree, d: Cells, u: Tree, commit: C.Commit, id: nat)
    requires HoldsColumn(R.StateOf(tables), c, t) && Column(d, u)
    requires MapOf(InOrder(u)) == UpdateAll(MapOf(InOrder(t)), commit.changes)
    ensures var r := R.Record(id, SlotsOf(c, d), map[]);
      Carries(LookupTree, tables, commit, r) && HoldsColumn(R.StateOf(R.Enact(tables, r)), d, u)
  {
    hide InOrder, MapOf, UpdateAll, Column, Shows, R.Fresh, R.Enact, LookupTree, R.StateOf;
    RecordShows(tables, c, d, id);
    ContentsAre(R.StateOf(tables), c, t);
    ContentsAre(R.StateOf(R.Enact(tables, R.Record(id, SlotsOf(c, d), map[]))), d, u);
  }
}
