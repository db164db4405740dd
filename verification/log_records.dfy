/** Records of the pipeline as items of a log file. */
module LogRecords {
  import opened Keys
  import opened Bytes
  import opened Words
  import opened Masks
  import opened LogCodec
  import R = Records

  /**
   * The item is one of the record's slots, or one of its pages with a mask for the changed entries. The record may also
   * drop index tables, which writes no cell.
   */
  ghost predicate ItemOf(r: R.Record, it: Item) {
    match it
    case ValueItem(t, i, d) => R.SlotId(t, i) in r.slots && r.slots[R.SlotId(t, i)] == d
    case PageItem(t, i, m, entries) =>
      && R.PageId(t, i) in r.pages && m < Pow2(64)
      && (forall j :: 0 <= j < CHUNK_ENTRIES ==> (BitSet(m, j) <==> j in r.pages[R.PageId(t, i)].mask))
      && entries == Picks(m, r.pages[R.PageId(t, i)].page, 0)
    case DropItem(_) => true
  }

  /** The items write the cell. */
  ghost predicate Lists(items: seq<Item>, c: R.Cell) {
    exists k :: 0 <= k < |items| && ItemWrites(items[k], c)
  }

  ghost predicate ItemWrites(it: Item, c: R.Cell) {
    match it
    case ValueItem(t, i, _) => c == R.Slot(R.SlotId(t, i))
    case PageItem(t, i, m, _) => c.Item? && c.page == R.PageId(t, i) && c.item < CHUNK_ENTRIES && BitSet(m, c.item)
    case DropItem(_) => false
  }

  /** The items are the record, in any order: nothing else, and nothing left out. */
  ghost predicate Enumerates(r: R.Record, items: seq<Item>) {
    && r.Valid()
    && (forall k :: 0 <= k < |items| ==> ItemOf(r, items[k]))
    && (forall s :: s in r.slots ==> Lists(items, R.Slot(s)))
    && (forall p, i :: p in r.pages && i in r.pages[p].mask ==> Lists(items, R.Item(p, i)))
  }

  /** What an enacted item does to the cells. */
  ghost function EnactItem(t: R.Tables, it: Item): R.Tables {
    match it
    case ValueItem(tb, i, d) => t[R.Slot(R.SlotId(tb, i)) := d]
    case PageItem(tb, i, m, entries) => t + PageCells(R.PageId(tb, i), m, entries)
    case DropItem(_) => t
  }

  /** The masked entries, as enacting puts them on a page, whatever was there before. */
  ghost function PageCells(p: R.PageId, m: nat, entries: seq<seq<byte>>): map<R.Cell, R.Data> {
    map i | 0 <= i < CHUNK_ENTRIES && BitSet(m, i) :: R.Item(p, i) := Spread(m, entries, Blank(), 0)[i]
  }

  ghost function Blank(): (b: seq<seq<byte>>)
    ensures |b| == CHUNK_ENTRIES
  {
    seq(CHUNK_ENTRIES, i => [])
  }

  ghost function EnactItems(t: R.Tables, items: seq<Item>): R.Tables {
    if items == [] then t else EnactItem(EnactItems(t, items[..|items| - 1]), items[|items| - 1])
  }

  /** Enacting an item of a record changes exactly the cells it writes, to what the record gives them. */
  lemma ItemEnacted(t: R.Tables, r: R.Record, it: Item, c: R.Cell)
    requires r.Valid() && ItemOf(r, it)
    ensures ItemWrites(it, c) ==> r.Writes(c) && c in EnactItem(t, it) && EnactItem(t, it)[c] == r.DataAt(c)
    ensures !ItemWrites(it, c) ==> (c in EnactItem(t, it) <==> c in t) && (c in t ==> EnactItem(t, it)[c] == t[c])
  {
    hide Pow2, Picks, Spread, BitSet;
    if it.PageItem? && ItemWrites(it, c) {
      var page := r.pages[R.PageId(it.table, it.index)].page;
      SpreadOfPicks(it.mask, page, Blank(), 0, c.item);
    }
  }

  lemma {:induction false} ItemsEnacted(t: R.Tables, r: R.Record, items: seq<Item>, c: R.Cell)
    requires r.Valid() && forall k :: 0 <= k < |items| ==> ItemOf(r, items[k])
    ensures Lists(items, c) ==> r.Writes(c) && c in EnactItems(t, items) && EnactItems(t, items)[c] == r.DataAt(c)
    ensures !Lists(items, c) ==> (c in EnactItems(t, items) <==> c in t) && (c in t ==> EnactItems(t, items)[c] == t[c])
  {
    hide ItemOf, ItemWrites, EnactItem;
    if items != [] {
      var n := |items| - 1;
      ItemsEnacted(t, r, items[..n], c);
      ItemEnacted(EnactItems(t, items[..n]), r, items[n], c);
      ListsLast(items, c);
    }
  }

  lemma ListsLast(items: seq<Item>, c: R.Cell)
    requires items != []
    ensures Lists(items, c) <==> Lists(items[..|items| - 1], c) || ItemWrites(items[|items| - 1], c)
  {
    hide ItemWrites;
    var d := items[..|items| - 1];
    assert forall k :: 0 <= k < |d| ==> d[k] == items[k];
  }

  /** Enacting a record's items one by one, in whatever order they were written, is enacting the record. */
  lemma EnumeratedIsEnacted(t: R.Tables, r: R.Record, items: seq<Item>)
    requires Enumerates(r, items)
    ensures EnactItems(t, items) == R.Enact(t, r)
  {
    hide ItemOf, Lists, EnactItems, R.Record.DataAt;
    var u, v := EnactItems(t, items), R.Enact(t, r);
    forall c
      ensures (c in u <==> c in v) && (c in u ==> u[c] == v[c])
    {
      ItemsEnacted(t, r, items, c);
      if r.Writes(c) {
        WritesListed(r, items, c);
      }
    }
  }

  lemma WritesListed(r: R.Record, items: seq<Item>, c: R.Cell)
    requires Enumerates(r, items) && r.Writes(c)
    ensures Lists(items, c)
  {
    hide ItemOf, Lists;
  }

  /**
   * A record of the pipeline, written to a log file in any order and read back, enacts as the record. Exactly its bytes
   * are used.
   */
  lemma LoggedIsEnacted(cfg: Configs, crc: Checksum, r: R.Record, items: seq<Item>, t: R.Tables, rest: seq<byte>)
    requires Enumerates(r, items) && r.id < U64 && forall k :: 0 <= k < |items| ==> ItemOk(cfg, items[k])
    ensures var read := TakeRecord(cfg, crc, EncodeRecord(crc, LogRecord(r.id, items)) + rest);
      && read.Some? && read.value.rest == rest && read.value.value.id == r.id
      && EnactItems(t, read.value.value.items) == R.Enact(t, r)
  {
    hide Enumerates, ItemOk, TakeRecord, EncodeRecord, EnactItems;
    TakeRecordOf(cfg, crc, LogRecord(r.id, items), rest);
    EnumeratedIsEnacted(t, r, items);
  }
}
