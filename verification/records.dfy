/** Log records, what they write to the tables, and the overlay that shows them before they are written. */
module Records {
  import opened Keys
  import IndexEntries

  type Data = seq<byte>

  const CHUNK_ENTRIES: nat := IndexEntries.CHUNK_ENTRIES

  datatype SlotId = SlotId(table: nat, index: nat)
  datatype PageId = PageId(table: nat, chunk: nat)

  /** The units the tables are written in: value slots, and single entries of index pages. */
  datatype Cell = Slot(slot: SlotId) | Item(page: PageId, item: nat)

  type Tables = map<Cell, Data>

  /** A logged page: which entries the record changed, and the whole page after the change. */
  datatype PageWrite = PageWrite(mask: set<nat>, page: seq<Data>)

  datatype Record = Record(id: nat, slots: map<SlotId, Data>, pages: map<PageId, PageWrite>) {
    ghost predicate Valid() {
      forall p :: p in pages ==>
        |pages[p].page| == CHUNK_ENTRIES && forall i :: i in pages[p].mask ==> i < CHUNK_ENTRIES
    }

    predicate Writes(c: Cell) {
      match c
      case Slot(s) => s in slots
      case Item(p, i) => p in pages && i in pages[p].mask && i < |pages[p].page|
    }

    function DataAt(c: Cell): Data
      requires Writes(c)
    {
      match c
      case Slot(s) => slots[s]
      case Item(p, i) => pages[p].page[i]
    }
  }

  function SlotCells(r: Record): set<Cell> {
    set s | s in r.slots :: Slot(s)
  }

  function ItemCells(r: Record): set<Cell> {
    set p, i | p in r.pages && i in r.pages[p].mask && i < |r.pages[p].page| :: Item(p, i)
  }

  function CellsOf(r: Record): (cells: set<Cell>)
    ensures forall c :: c in cells <==> r.Writes(c)
  {
    assert forall c: Cell :: c.Item? && r.Writes(c) ==> c in ItemCells(r);
    SlotCells(r) + ItemCells(r)
  }

  function WritesOf(r: Record): (m: map<Cell, Data>)
    ensures forall c :: c in m <==> r.Writes(c)
    ensures forall c :: r.Writes(c) ==> m[c] == r.DataAt(c)
  {
    map c | c in CellsOf(r) :: r.DataAt(c)
  }

  /** The tables after a record: of a page only the masked entries are written. */
  function Enact(t: Tables, r: Record): Tables {
    t + WritesOf(r)
  }

  function EnactAll(t: Tables, rs: seq<Record>): Tables {
    if rs == [] then t else Enact(EnactAll(t, rs[..|rs| - 1]), rs[|rs| - 1])
  }

  /** What is read from a cell: nothing, for one never written. */
  function At(t: Tables, c: Cell): Data {
    if c in t then t[c] else []
  }

  /** The logged pages show the tables as they are, except for the masked entries. */
  ghost predicate Fresh(t: Tables, r: Record) {
    r.Valid() && forall p, i :: p in r.pages && 0 <= i < CHUNK_ENTRIES && i !in r.pages[p].mask ==>
      r.pages[p].page[i] == At(t, Item(p, i))
  }

  /** Every record was planned on what the records before it left. */
  ghost predicate Chained(t: Tables, rs: seq<Record>) {
    rs == [] || (Chained(t, rs[..|rs| - 1]) && Fresh(EnactAll(t, rs[..|rs| - 1]), rs[|rs| - 1]))
  }

  // Overlays.

  datatype StampedSlot = StampedSlot(id: nat, data: Data)
  datatype StampedPage = StampedPage(id: nat, mask: set<nat>, page: seq<Data>)
  datatype Overlays = Overlays(slots: map<SlotId, StampedSlot>, pages: map<PageId, StampedPage>)

  const NoOverlays := Overlays(map[], map[])

  /** A finished record replaces what the overlay has for its slots and pages. */
  function Extend(o: Overlays, r: Record): Overlays {
    Overlays(o.slots + (map s | s in r.slots :: StampedSlot(r.id, r.slots[s])),
             o.pages + (map p | p in r.pages :: StampedPage(r.id, r.pages[p].mask, r.pages[p].page)))
  }

  /** An enacted record leaves the overlay, where a later one has not taken its place. */
  function Clear(o: Overlays, r: Record): Overlays {
    Overlays(map s | s in o.slots && !(s in r.slots && o.slots[s].id == r.id) :: o.slots[s],
             map p | p in o.pages && !(p in r.pages && o.pages[p].id == r.id) :: o.pages[p])
  }

  ghost function OverlayOf(rs: seq<Record>): Overlays {
    if rs == [] then NoOverlays else Extend(OverlayOf(rs[..|rs| - 1]), rs[|rs| - 1])
  }

  /** What a reader sees: the overlay where it has the slot or the page, the tables elsewhere. */
  function See(t: Tables, o: Overlays, c: Cell): Data {
    match c
    case Slot(s) => if s in o.slots then o.slots[s].data else At(t, c)
    case Item(p, i) => if p in o.pages && i < |o.pages[p].page| then o.pages[p].page[i] else At(t, c)
  }

  lemma {:induction false} EnactAllCons(t: Tables, r: Record, rest: seq<Record>)
    ensures EnactAll(t, [r] + rest) == EnactAll(Enact(t, r), rest)
  {
    hide Enact;
    var rs, n := [r] + rest, |rest|;
    if rest == [] {
      assert rs == [r] && rs[..0] == [];
    } else {
      EnactAllCons(t, r, rest[..n - 1]);
      assert rs[..n] == [r] + rest[..n - 1];
    }
  }

  lemma {:induction false} EnactAllJoin(t: Tables, a: seq<Record>, b: seq<Record>)
    ensures EnactAll(t, a + b) == EnactAll(EnactAll(t, a), b)
  {
    hide Enact;
    if b == [] {
      assert a + b == a;
    } else {
      var n := |b| - 1;
      EnactAllJoin(t, a, b[..n]);
      assert (a + b)[..|a| + n] == a + b[..n];
    }
  }

  lemma {:induction false} ChainedCons(t: Tables, r: Record, rest: seq<Record>)
    requires Chained(t, [r] + rest)
    ensures Fresh(t, r) && Chained(Enact(t, r), rest)
  {
    hide Enact, Fresh;
    var rs, n := [r] + rest, |rest|;
    if rest == [] {
      assert rs[..0] == [];
    } else {
      assert rs[..n] == [r] + rest[..n - 1];
      ChainedCons(t, r, rest[..n - 1]);
      EnactAllCons(t, r, rest[..n - 1]);
    }
  }

  lemma {:induction false} UnchainedCons(t: Tables, r: Record, rest: seq<Record>)
    requires Fresh(t, r) && Chained(Enact(t, r), rest)
    ensures Chained(t, [r] + rest)
  {
    hide Enact, Fresh;
    var rs, n := [r] + rest, |rest|;
    if rest == [] {
      assert rs[..0] == [];
      assert EnactAll(t, rs[..0]) == t;
    } else {
      assert rs[..n] == [r] + rest[..n - 1];
      UnchainedCons(t, r, rest[..n - 1]);
      EnactAllCons(t, r, rest[..n - 1]);
    }
  }

  lemma SeeExtended(t: Tables, o: Overlays, u: Tables, r: Record, c: Cell)
    requires See(t, o, c) == At(u, c) && Fresh(u, r)
    requires c.Item? ==> c.item < CHUNK_ENTRIES
    ensures See(t, Extend(o, r), c) == At(Enact(u, r), c)
  {
    hide Enact, At;
    AtEnact(u, r, c);
  }

  lemma AtEnact(t: Tables, r: Record, c: Cell)
    ensures At(Enact(t, r), c) == if r.Writes(c) then r.DataAt(c) else At(t, c)
  {
  }

  /**
   * Reading through the overlay shows the tables as they will be once every pending record is enacted, whatever pages
   * the records share: the newest page copy includes what the earlier records changed on it.
   */
  lemma {:induction false} SeeIsNewest(t: Tables, rs: seq<Record>, c: Cell)
    requires Chained(t, rs) && (c.Item? ==> c.item < CHUNK_ENTRIES)
    ensures See(t, OverlayOf(rs), c) == At(EnactAll(t, rs), c)
  {
    hide Enact, Fresh, See;
    if rs == [] {
      assert See(t, NoOverlays, c) == At(t, c) by { SeeNothing(t, c); }
    } else {
      var n := |rs| - 1;
      SeeIsNewest(t, rs[..n], c);
      SeeExtended(t, OverlayOf(rs[..n]), EnactAll(t, rs[..n]), rs[n], c);
    }
  }

  lemma SeeNothing(t: Tables, c: Cell)
    ensures See(t, NoOverlays, c) == At(t, c)
  {
  }

  lemma PartEnacted(t: Tables, part: map<Cell, Data>, r: Record)
    requires forall c :: c in part ==> r.Writes(c) && part[c] == r.DataAt(c)
    ensures Enact(t + part, r) == Enact(t, r)
  {
  }

  lemma PartFresh(t: Tables, part: map<Cell, Data>, r: Record)
    requires Fresh(t, r) && forall c :: c in part ==> r.Writes(c)
    ensures Fresh(t + part, r)
  {
    forall p, i | p in r.pages && 0 <= i < CHUNK_ENTRIES && i !in r.pages[p].mask
      ensures r.pages[p].page[i] == At(t + part, Item(p, i))
    {
      assert !r.Writes(Item(p, i));
    }
  }

  /** Enacting any part of the first pending record changes neither what is pending nor what is seen. */
  lemma EnactPart(t: Tables, part: map<Cell, Data>, r: Record, rest: seq<Record>)
    requires Chained(t, [r] + rest)
    requires forall c :: c in part ==> r.Writes(c) && part[c] == r.DataAt(c)
    ensures Chained(t + part, [r] + rest) && EnactAll(t + part, [r] + rest) == EnactAll(t, [r] + rest)
  {
    hide Enact, Fresh, EnactAll, Chained;
    ChainedCons(t, r, rest);
    PartEnacted(t, part, r);
    PartFresh(t, part, r);
    UnchainedCons(t + part, r, rest);
    EnactAllCons(t, r, rest);
    EnactAllCons(t + part, r, rest);
  }

  lemma ClearExtended(o: Overlays, r: Record, x: Record)
    requires x.id != r.id
    ensures Clear(Extend(o, x), r) == Extend(Clear(o, r), x)
  {
    hide Extend, Clear;
    ClearExtendedSlots(o, r, x);
    ClearExtendedPages(o, r, x);
  }

  lemma ClearExtendedSlots(o: Overlays, r: Record, x: Record)
    requires x.id != r.id
    ensures Clear(Extend(o, x), r).slots == Extend(Clear(o, r), x).slots
  {
  }

  lemma ClearExtendedPages(o: Overlays, r: Record, x: Record)
    requires x.id != r.id
    ensures Clear(Extend(o, x), r).pages == Extend(Clear(o, r), x).pages
  {
  }

  lemma ClearOnly(r: Record)
    ensures Clear(Extend(NoOverlays, r), r) == NoOverlays
  {
  }

  /** Taking an enacted record off the overlay leaves exactly the overlay of the records after it. */
  lemma {:induction false} ClearFirst(r: Record, rest: seq<Record>)
    requires forall i :: 0 <= i < |rest| ==> rest[i].id != r.id
    ensures Clear(OverlayOf([r] + rest), r) == OverlayOf(rest)
  {
    hide Extend, Clear;
    var rs, n := [r] + rest, |rest|;
    if rest == [] {
      assert rs[..0] == [];
      ClearOnly(r);
    } else {
      assert rs[..n] == [r] + rest[..n - 1];
      ClearFirst(r, rest[..n - 1]);
      ClearExtended(OverlayOf(rs[..n]), r, rest[n - 1]);
    }
  }

  // Views.

  /** What a reader of slots and index entries gets. */
  type View = Cell -> Data

  ghost predicate InRange(c: Cell) {
    c.Item? ==> c.item < CHUNK_ENTRIES
  }

  ghost function ViewOf(t: Tables, o: Overlays): View {
    (c: Cell) => See(t, o, c)
  }

  ghost function StateOf(t: Tables): View {
    (c: Cell) => At(t, c)
  }

  ghost predicate Alike(f: View, g: View) {
    forall c :: InRange(c) ==> f(c) == g(c)
  }

  /** How the columns read keys and values off slots and index entries. */
  type Reader = View -> map<Key, Value>

  /** A reader depends on nothing but what it reads. */
  ghost predicate Respects(lookup: Reader) {
    forall f, g :: Alike(f, g) ==> lookup(f) == lookup(g)
  }

  /** Through the overlay a reader sees the state after all pending records. */
  lemma ViewIsNewest(t: Tables, rs: seq<Record>)
    requires Chained(t, rs)
    ensures Alike(ViewOf(t, OverlayOf(rs)), StateOf(EnactAll(t, rs)))
  {
    hide See, At, Chained, EnactAll;
    forall c | InRange(c)
      ensures ViewOf(t, OverlayOf(rs))(c) == StateOf(EnactAll(t, rs))(c)
    {
      SeeIsNewest(t, rs, c);
    }
  }

  lemma LookupIsNewest(lookup: Reader, t: Tables, rs: seq<Record>)
    requires Respects(lookup) && Chained(t, rs)
    ensures lookup(ViewOf(t, OverlayOf(rs))) == lookup(StateOf(EnactAll(t, rs)))
  {
    hide Alike, ViewOf, StateOf, Chained, EnactAll;
    ViewIsNewest(t, rs);
  }

  // Redo.

  /** The data the last of these records to write the cell gives it. */
  lemma {:induction false} LastWrite(t: Tables, u: Tables, rs: seq<Record>, c: Cell)
    requires At(t, c) == At(u, c) || exists i :: 0 <= i < |rs| && rs[i].Writes(c)
    ensures At(EnactAll(t, rs), c) == At(EnactAll(u, rs), c)
  {
    if rs != [] {
      var n := |rs| - 1;
      if !rs[n].Writes(c) {
        assert forall i :: 0 <= i < n ==> rs[..n][i] == rs[i];
        LastWrite(t, u, rs[..n], c);
      }
    }
  }

  lemma {:induction false} Unwritten(t: Tables, rs: seq<Record>, c: Cell)
    requires forall i :: 0 <= i < |rs| ==> !rs[i].Writes(c)
    ensures At(EnactAll(t, rs), c) == At(t, c)
  {
    if rs != [] {
      Unwritten(t, rs[..|rs| - 1], c);
    }
  }
}
