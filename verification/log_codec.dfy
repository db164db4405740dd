/** The stored form of log records. */
module LogCodec {
  import opened Keys
  import opened Bytes
  import opened Masks
  import Words
  import IndexEntries
  import S = Slots

  const BEGIN_RECORD: byte := 1
  const INSERT_INDEX: byte := 2
  const INSERT_VALUE: byte := 3
  const END_RECORD: byte := 4
  const DROP_TABLE: byte := 5
  const ENTRY_BYTES: nat := 8
  const CHUNK_ENTRIES: nat := IndexEntries.CHUNK_ENTRIES

  /** A change in a record: the changed entries of an index page, a value slot, or an index table that goes. */
  datatype Item =
    | PageItem(table: nat, index: nat, mask: nat, entries: seq<seq<byte>>)
    | ValueItem(table: nat, index: nat, data: seq<byte>)
    | DropItem(table: nat)

  datatype LogRecord = LogRecord(id: nat, items: seq<Item>)

  function Concat(cells: seq<seq<byte>>): seq<byte> {
    if cells == [] then [] else cells[0] + Concat(cells[1..])
  }

  function EncodeItem(it: Item): seq<byte> {
    match it
    case PageItem(t, i, m, cells) => [INSERT_INDEX] + LE(t, 2) + LE(i, 8) + LE(m, 8) + Concat(cells)
    case ValueItem(t, i, d) => [INSERT_VALUE] + LE(t, 2) + LE(i, 8) + d
    case DropItem(t) => [DROP_TABLE] + LE(t, 2)
  }

  function EncodeItems(items: seq<Item>): seq<byte> {
    if items == [] then [] else EncodeItem(items[0]) + EncodeItems(items[1..])
  }

  /** All of a record that its checksum covers. */
  function EncodeBody(r: LogRecord): seq<byte> {
    [BEGIN_RECORD] + LE(r.id, 8) + EncodeItems(r.items) + [END_RECORD]
  }

  type Sum = n: nat | n < U32

  /** The checksum function; which one does not matter here. */
  type Checksum = seq<byte> -> Sum

  function EncodeRecord(crc: Checksum, r: LogRecord): seq<byte> {
    EncodeBody(r) + LE(crc(EncodeBody(r)), 4)
  }

  type Configs = nat -> S.TableConfig

  /** What a value slot's bytes have to be for their length to be told from their start. */
  ghost predicate PayloadOk(c: S.Config, index: nat, d: seq<byte>) {
    if index == 0 then |d| == 16 else |d| >= S.SIZE_SIZE && |d| == S.Extent(c, d)
  }

  ghost predicate ItemOk(cfg: Configs, it: Item) {
    it.table < U16 &&
    match it
    case PageItem(t, i, m, cells) =>
      && i < U64 && i < TotalEntries(t) && m < U64 && |cells| == Ones(m)
      && forall j :: 0 <= j < |cells| ==> |cells[j]| == ENTRY_BYTES
    case ValueItem(t, i, d) => i < U64 && PayloadOk(cfg(t), i, d)
    case DropItem(_) => true
  }

  // Reading.

  function TakeNumber(b: seq<byte>, n: nat): (r: Option<Got<nat>>)
    ensures r.Some? ==> |r.value.rest| == |b| - n
  {
    match Take(b, n)
    case None => None
    case Some(g) => Some(Got(UnLE(g.value), g.rest))
  }

  function TakeCells(b: seq<byte>, n: nat): (r: Option<Got<seq<seq<byte>>>>)
    ensures r.Some? ==> |r.value.rest| <= |b|
    decreases n
  {
    if n == 0 then Some(Got([], b))
    else
      match Take(b, ENTRY_BYTES)
      case None => None
      case Some(g) =>
        match TakeCells(g.rest, n - 1)
        case None => None
        case Some(h) => Some(Got([g.value] + h.value, h.rest))
  }

  /** A value slot, as both validation and enactment read it: its first two bytes tell how much follows. */
  function TakePayload(c: S.Config, index: nat, b: seq<byte>): (r: Option<Got<seq<byte>>>)
    ensures r.Some? ==> |r.value.rest| <= |b|
  {
    if index == 0 then Take(b, 16)
    else if |b| < S.SIZE_SIZE then None
    else Take(b, S.Extent(c, b))
  }

  /** How many index entries a table has, which is what its id tells. */
  function TotalEntries(table: nat): nat {
    Words.Pow2(table % 256) * CHUNK_ENTRIES
  }

  /** The mask and the entries of a page. */
  function TakeMasked(t: nat, i: nat, b: seq<byte>): (r: Option<Got<Item>>)
    ensures r.Some? ==> |r.value.rest| <= |b|
  {
    match TakeNumber(b, 8)
    case None => None
    case Some(m) =>
      match TakeCells(m.rest, Ones(m.value))
      case None => None
      case Some(cells) => Some(Got(PageItem(t, i, m.value, cells.value), cells.rest))
  }

  /** Validation refuses a page number that is not below the number of entries of the table. */
  function TakePage(t: nat, i: nat, b: seq<byte>): (r: Option<Got<Item>>)
    ensures r.Some? ==> |r.value.rest| <= |b|
  {
    if i >= TotalEntries(t) then None else TakeMasked(t, i, b)
  }

  /** The item that starts `b`, its kind included. */
  function TakeItem(cfg: Configs, b: seq<byte>): (r: Option<Got<Item>>)
    ensures r.Some? ==> |r.value.rest| < |b|
  {
    if b == [] then None
    else
      match TakeNumber(b[1..], 2)
      case None => None
      case Some(t) =>
        if b[0] == DROP_TABLE then Some(Got(DropItem(t.value), t.rest))
        else if b[0] != INSERT_INDEX && b[0] != INSERT_VALUE then None
        else
          match TakeNumber(t.rest, 8)
          case None => None
          case Some(i) =>
            if b[0] == INSERT_INDEX then TakePage(t.value, i.value, i.rest)
            else
              match TakePayload(cfg(t.value), i.value, i.rest)
              case None => None
              case Some(d) => Some(Got(ValueItem(t.value, i.value, d.value), d.rest))
  }

  lemma TakeNumberOf(n: nat, w: nat, rest: seq<byte>)
    requires n < Pow256(w)
    ensures TakeNumber(LE(n, w) + rest, w) == Some(Got(n, rest))
  {
    var b := LE(n, w) + rest;
    UnLEofLE(n, w);
    assert b[..w] == LE(n, w) && b[w..] == rest;
  }

  lemma {:induction false} TakeCellsOf(cells: seq<seq<byte>>, rest: seq<byte>)
    requires forall j :: 0 <= j < |cells| ==> |cells[j]| == ENTRY_BYTES
    ensures TakeCells(Concat(cells) + rest, |cells|) == Some(Got(cells, rest))
  {
    if cells != [] {
      TakeCellsOf(cells[1..], rest);
      var b := Concat(cells) + rest;
      assert b[..8] == cells[0] && b[8..] == Concat(cells[1..]) + rest;
      assert cells == [cells[0]] + cells[1..];
    } else {
      assert Concat(cells) + rest == rest;
    }
  }

  lemma TakePayloadOf(c: S.Config, index: nat, d: seq<byte>, rest: seq<byte>)
    requires PayloadOk(c, index, d)
    ensures TakePayload(c, index, d + rest) == Some(Got(d, rest))
  {
    var b := d + rest;
    assert b[..|d|] == d && b[|d|..] == rest;
    if index != 0 {
      assert b[..2] == d[..2];
    }
  }

  lemma TakePageOf(t: nat, i: nat, m: nat, cells: seq<seq<byte>>, rest: seq<byte>)
    requires i < TotalEntries(t) && m < U64 && |cells| == Ones(m) && forall j :: 0 <= j < |cells| ==>
      |cells[j]| == ENTRY_BYTES
    ensures TakePage(t, i, LE(m, 8) + (Concat(cells) + rest)) == Some(Got(PageItem(t, i, m, cells), rest))
  {
    hide LE, UnLE, TakeNumber, TakeCells, Ones, Concat, TotalEntries;
    Widths();
    TakeNumberOf(m, 8, Concat(cells) + rest);
    TakeCellsOf(cells, rest);
  }

  lemma Regroup3(k: byte, t: seq<byte>, i: seq<byte>, d: seq<byte>, rest: seq<byte>)
    ensures [k] + t + i + d + rest == [k] + (t + (i + (d + rest)))
  {
  }

  lemma Regroup4(k: byte, t: seq<byte>, i: seq<byte>, m: seq<byte>, d: seq<byte>, rest: seq<byte>)
    ensures [k] + t + i + m + d + rest == [k] + (t + (i + (m + (d + rest))))
  {
  }

  lemma Behind(k: byte, b: seq<byte>)
    ensures ([k] + b)[0] == k && ([k] + b)[1..] == b
  {
  }

  lemma TakePageItem(cfg: Configs, it: Item, rest: seq<byte>)
    requires ItemOk(cfg, it) && it.PageItem?
    ensures TakeItem(cfg, EncodeItem(it) + rest) == Some(Got(it, rest))
  {
    hide LE, UnLE, TakeNumber, TakePayload, TakePage, Ones, Concat, PayloadOk, TotalEntries;
    var PageItem(t, i, m, cells) := it;
    var tail := LE(m, 8) + (Concat(cells) + rest);
    Regroup4(INSERT_INDEX, LE(t, 2), LE(i, 8), LE(m, 8), Concat(cells), rest);
    Behind(INSERT_INDEX, LE(t, 2) + (LE(i, 8) + tail));
    Widths();
    TakeNumberOf(t, 2, LE(i, 8) + tail);
    TakeNumberOf(i, 8, tail);
    TakePageOf(t, i, m, cells, rest);
  }

  lemma TakeValueItem(cfg: Configs, it: Item, rest: seq<byte>)
    requires ItemOk(cfg, it) && it.ValueItem?
    ensures TakeItem(cfg, EncodeItem(it) + rest) == Some(Got(it, rest))
  {
    hide LE, UnLE, TakeNumber, TakePayload, TakePage, PayloadOk;
    var ValueItem(t, i, d) := it;
    Regroup3(INSERT_VALUE, LE(t, 2), LE(i, 8), d, rest);
    Behind(INSERT_VALUE, LE(t, 2) + (LE(i, 8) + (d + rest)));
    Widths();
    TakeNumberOf(t, 2, LE(i, 8) + (d + rest));
    TakeNumberOf(i, 8, d + rest);
    TakePayloadOf(cfg(t), i, d, rest);
  }

  /** An item is read back whole, and nothing behind it is touched. */
  lemma TakeItemOf(cfg: Configs, it: Item, rest: seq<byte>)
    requires ItemOk(cfg, it)
    ensures TakeItem(cfg, EncodeItem(it) + rest) == Some(Got(it, rest))
  {
    hide LE, UnLE, TakeNumber, ItemOk;
    match it
    case PageItem(_, _, _, _) => TakePageItem(cfg, it, rest);
    case ValueItem(_, _, _) => TakeValueItem(cfg, it, rest);
    case DropItem(t) =>
      TableOk(cfg, it);
      assert EncodeItem(it) + rest == [DROP_TABLE] + (LE(t, 2) + rest);
      Behind(DROP_TABLE, LE(t, 2) + rest);
      Widths();
      TakeNumberOf(t, 2, rest);
  }

  lemma TableOk(cfg: Configs, it: Item)
    requires ItemOk(cfg, it)
    ensures it.table < U16
  {
  }

  // Records.

  /** Items up to the end mark, which is left unread. */
  function TakeItems(cfg: Configs, b: seq<byte>): (r: Option<Got<seq<Item>>>)
    ensures r.Some? ==> r.value.rest != [] && r.value.rest[0] == END_RECORD && |r.value.rest| <= |b|
    decreases |b|
  {
    if b == [] then None
    else if b[0] == END_RECORD then Some(Got([], b))
    else
      match TakeItem(cfg, b)
      case None => None
      case Some(it) =>
        match TakeItems(cfg, it.rest)
        case None => None
        case Some(more) => Some(Got([it.value] + more.value, more.rest))
  }

  function TakeRecord(cfg: Configs, crc: Checksum, b: seq<byte>): Option<Got<LogRecord>> {
    if b == [] || b[0] != BEGIN_RECORD then None
    else
      match TakeNumber(b[1..], 8)
      case None => None
      case Some(id) =>
        match TakeItems(cfg, id.rest)
        case None => None
        case Some(items) =>
          var body := b[..|b| - |items.rest| + 1];
          match TakeNumber(items.rest[1..], 4)
          case None => None
          case Some(sum) =>
            if sum.value == crc(body) then Some(Got(LogRecord(id.value, items.value), sum.rest)) else None
  }

  lemma {:induction false} TakeItemsOf(cfg: Configs, items: seq<Item>, rest: seq<byte>)
    requires forall j :: 0 <= j < |items| ==> ItemOk(cfg, items[j])
    ensures TakeItems(cfg, EncodeItems(items) + ([END_RECORD] + rest)) == Some(Got(items, [END_RECORD] + rest))
  {
    hide TakeItem, EncodeItem, ItemOk;
    var last := [END_RECORD] + rest;
    if items == [] {
      assert EncodeItems(items) + last == last;
    } else {
      var more := EncodeItems(items[1..]);
      assert forall j :: 0 <= j < |items[1..]| ==> items[1..][j] == items[j + 1];
      TakeItemsOf(cfg, items[1..], rest);
      assert EncodeItems(items) + last == EncodeItem(items[0]) + (more + last);
      TakeItemOf(cfg, items[0], more + last);
      NotTheEnd(items[0], more + last);
      assert [items[0]] + items[1..] == items;
    }
  }

  lemma NotTheEnd(it: Item, rest: seq<byte>)
    ensures EncodeItem(it) + rest != [] && (EncodeItem(it) + rest)[0] != END_RECORD
  {
    hide LE, Concat;
  }

  /**
   * A record is read back with the same items in the same order, whatever that order is; exactly its own bytes are
   * used, and the checksum is taken over exactly the bytes it was computed from.
   */
  lemma TakeRecordOf(cfg: Configs, crc: Checksum, r: LogRecord, rest: seq<byte>)
    requires r.id < U64 && forall j :: 0 <= j < |r.items| ==> ItemOk(cfg, r.items[j])
    ensures TakeRecord(cfg, crc, EncodeRecord(crc, r) + rest) == Some(Got(r, rest))
  {
    hide LE, UnLE, TakeNumber, TakeItems, EncodeItems, ItemOk;
    var items, sum := EncodeItems(r.items), LE(crc(EncodeBody(r)), 4);
    var tail := [END_RECORD] + (sum + rest);
    RecordBytes(LE(r.id, 8), items, sum, rest);
    Behind(BEGIN_RECORD, LE(r.id, 8) + (items + tail));
    Widths();
    TakeNumberOf(r.id, 8, items + tail);
    TakeItemsOf(cfg, r.items, sum + rest);
    Behind(END_RECORD, sum + rest);
    TakeNumberOf(crc(EncodeBody(r)), 4, rest);
  }

  lemma RecordBytes(id: seq<byte>, items: seq<byte>, sum: seq<byte>, rest: seq<byte>)
    ensures var body := [BEGIN_RECORD] + id + items + [END_RECORD];
      var all, tail := body + sum + rest, [END_RECORD] + (sum + rest);
      all == [BEGIN_RECORD] + (id + (items + tail)) && |all| - |tail| + 1 == |body| && all[..|body|] == body
  {
  }
}
