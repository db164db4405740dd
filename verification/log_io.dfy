/** Writing records to a log file and reading them back, byte by byte. */
module LogFiles {
  import opened Keys
  import opened Bytes
  import opened Words
  import opened Masks
  import opened LogCodec
  import S = Slots

  // Pages.

  /** Collects the masked entries of a page for the log. */
  method WriteEntries(mask: nat, page: seq<seq<byte>>) returns (entries: seq<seq<byte>>)
    requires |page| == CHUNK_ENTRIES && mask < Pow2(64)
    ensures entries == Picks(mask, page, 0)
  {
    hide Picks, Pow2, TrailingZeros;
    var m: nat := mask;
    entries := [];
    while m != 0
      invariant m <= mask && entries + Picks(m, page, 0) == Picks(mask, page, 0)
      decreases m
    {
      LowestBit(m, 0);
      LowestFits(m, 64);
      PickLowest(m, page, 0);
      var i := TrailingZeros(m);
      entries := entries + [page[i]];
      m := m - Pow2(i);
    }
    assert Picks(0, page, 0) == [] by { PicksNone(page); }
  }

  // What can be logged.

  /** Any set of entries of a page can be logged. */
  lemma PagePayload(cfg: Configs, table: nat, index: nat, mask: nat, page: seq<seq<byte>>)
    requires table < U16 && index < U64 && index < TotalEntries(table) && mask < U64
    requires |page| == CHUNK_ENTRIES && forall j :: 0 <= j < |page| ==> |page[j]| == ENTRY_BYTES
    ensures ItemOk(cfg, PageItem(table, index, mask, Picks(mask, page, 0)))
  {
    hide Picks, Ones, Pow2;
    SixtyFour();
    PickCount(mask, page, 0);
    PickSizes(mask, page, 0, ENTRY_BYTES);
  }

  /** Every slot a value table writes, and its header, can be logged. */
  lemma SlotPayload(c: S.Config, s: S.Slot, index: nat)
    requires c.Valid() && s.Fits(c) && index > 0
    ensures PayloadOk(c, index, S.Encode(s))
  {
    hide S.Encode;
    S.ReadsAs(c, s, S.Encode(s));
  }

  // Records.

  /** A change as it was planned: a page is whole, and its mask names the entries that changed. */
  datatype Change =
    | PageChange(table: nat, index: nat, mask: nat, page: seq<seq<byte>>)
    | ValueChange(table: nat, index: nat, data: seq<byte>)
    | TableDrop(table: nat)
  {
    ghost predicate Valid() {
      PageChange? ==> |page| == CHUNK_ENTRIES && mask < Pow2(64)
    }
  }

  /** What is logged of a change: of a page, the masked entries. */
  ghost function LoggedItem(c: Change): Item {
    match c
    case PageChange(t, i, m, page) => PageItem(t, i, m, Picks(m, page, 0))
    case ValueChange(t, i, d) => ValueItem(t, i, d)
    case TableDrop(t) => DropItem(t)
  }

  ghost function LoggedItems(cs: seq<Change>): seq<Item> {
    seq(|cs|, i requires 0 <= i < |cs| => LoggedItem(cs[i]))
  }

  method WriteChange(c: Change) returns (b: seq<byte>)
    requires c.Valid()
    ensures b == EncodeItem(LoggedItem(c))
  {
    hide LE, Picks, Pow2;
    match c {
      case PageChange(t, i, m, page) =>
        var entries := WriteEntries(m, page);
        b := [INSERT_INDEX] + LE(t, 2) + LE(i, 8) + LE(m, 8) + Concat(entries);
      case ValueChange(t, i, d) =>
        b := [INSERT_VALUE] + LE(t, 2) + LE(i, 8) + d;
      case TableDrop(t) =>
        b := [DROP_TABLE] + LE(t, 2);
    }
  }

  /** Writes a record; `bytes` is how many bytes that takes. */
  method FlushToFile(crc: Checksum, id: nat, changes: seq<Change>) returns (file: seq<byte>, bytes: nat)
    requires forall i :: 0 <= i < |changes| ==> changes[i].Valid()
    ensures file == EncodeRecord(crc, LogRecord(id, LoggedItems(changes))) && bytes == |file|
  {
    hide EncodeItem, LE, LoggedItem, Pow2;
    file := [BEGIN_RECORD];
    file := file + LE(id, 8);
    var i := 0;
    ghost var head, items := file, LoggedItems(changes);
    assert items[0..] == items;
    while i < |changes|
      invariant i <= |changes| && file + EncodeItems(items[i..]) == head + EncodeItems(items)
    {
      assert items[i..][1..] == items[i + 1..];
      var b := WriteChange(changes[i]);
      file := file + b;
      i := i + 1;
    }
    assert items[i..] == [];
    assert file == head + EncodeItems(items);
    file := file + [END_RECORD];
    assert file == EncodeBody(LogRecord(id, items));
    bytes := |file|;
    file := file + LE(crc(file), 4);
    bytes := bytes + 4;
  }

  /** What is written behind the end of a slot's new contents stays. */
  function Overwritten(slots: map<nat, seq<byte>>, index: nat, b: seq<byte>): map<nat, seq<byte>> {
    slots[index := b + (if index in slots && |b| < |slots[index]| then slots[index][|b|..] else [])]
  }

  /** Of a slot only its first bytes are overwritten, and of the other slots nothing. */
  lemma OverwrittenKeeps(slots: map<nat, seq<byte>>, index: nat, b: seq<byte>, s: nat, i: nat)
    requires s in slots && i < |slots[s]|
    ensures var t := Overwritten(slots, index, b);
      s in t && i < |t[s]| && t[s][i] == if s == index && i < |b| then b[i] else slots[s][i]
  {
  }

  /** A slot just overwritten reads as what was written, whatever was there before. */
  lemma OverwrittenReads(c: S.Config, slots: map<nat, seq<byte>>, index: nat, s: S.Slot)
    requires c.Valid() && s.Fits(c)
    ensures var b := Overwritten(slots, index, S.Encode(s))[index];
      S.Encode(s) <= b && S.Extent(c, b) == |S.Encode(s)| && S.IsTombstone(b) == s.Free?
  {
    hide S.Encode, S.Extent, S.IsTombstone;
    var b := Overwritten(slots, index, S.Encode(s))[index];
    assert S.Encode(s) <= b;
    S.ReadsAs(c, s, b);
  }

  /** The file of a value table. */
  class TableFile {
    const config: S.TableConfig
    var slots: map<nat, seq<byte>>

    constructor (config: S.TableConfig, slots: map<nat, seq<byte>>)
      ensures this.config == config && this.slots == slots
    {
      this.config, this.slots := config, slots;
    }

    method WriteAt(index: nat, b: seq<byte>)
      modifies this
      ensures slots == Overwritten(old(slots), index, b)
    {
      var tail := if index in slots && |b| < |slots[index]| then slots[index][|b|..] else [];
      slots := slots[index := b + tail];
    }
  }

  class LogReader {
    const data: seq<byte>
    var pos: nat
    /** Where the record being read starts, and what the checksum has been computed over. */
    var start: nat
    var hashed: seq<byte>

    constructor (data: seq<byte>)
      ensures this.data == data && pos == 0 && start == 0 && hashed == [] && Valid()
    {
      this.data, pos, start, hashed := data, 0, 0, [];
    }

    /** Exactly the bytes read of the record are in the checksum. */
    ghost predicate Valid()
      reads this
    {
      start <= pos <= |data| && hashed == data[start..pos]
    }

    ghost function Rest(): seq<byte>
      requires pos <= |data|
      reads this
    {
      data[pos..]
    }

    /** The next `n` bytes, added to the checksum. */
    method Read(n: nat) returns (r: Option<seq<byte>>)
      requires Valid()
      modifies this`pos, this`hashed
      ensures Valid() && match Take(old(Rest()), n)
        case None => r == None
        case Some(g) => r == Some(g.value) && Rest() == g.rest
    {
      if pos + n > |data| {
        return None;
      }
      r := Some(data[pos..pos + n]);
      assert data[pos..][..n] == data[pos..pos + n];
      assert data[start..pos] + data[pos..pos + n] == data[start..pos + n];
      pos := pos + n;
      hashed := hashed + r.value;
    }

    method ReadNumber(n: nat) returns (r: Option<nat>)
      requires Valid()
      modifies this`pos, this`hashed
      ensures Valid() && match TakeNumber(old(Rest()), n)
        case None => r == None
        case Some(g) => r == Some(g.value) && Rest() == g.rest
    {
      hide UnLE;
      var b := Read(n);
      match b {
        case None => r := None;
        case Some(x) => r := Some(UnLE(x));
      }
    }

    /** Entries of a page: eight bytes for every set bit of the mask, lowest first. */
    method ReadEntries(mask: nat) returns (r: Option<seq<seq<byte>>>)
      requires Valid()
      modifies this`pos, this`hashed
      ensures Valid() && match TakeCells(old(Rest()), Ones(mask))
        case None => r == None
        case Some(g) => r == Some(g.value) && Rest() == g.rest
    {
      hide Ones, TrailingZeros, Pow2;
      var m: nat, cells := mask, [];
      NoCells(TakeCells(Rest(), Ones(m)));
      while m != 0
        invariant Valid() && TakeCells(old(Rest()), Ones(mask)) == WithCells(cells, TakeCells(Rest(), Ones(m)))
        decreases m
      {
        LowestBit(m, 0);
        OnesStep(m);
        m := m - Pow2(TrailingZeros(m));
        var x := Read(ENTRY_BYTES);
        if x.None? {
          return None;
        }
        CellsStep(cells, x.value, TakeCells(Rest(), Ones(m)));
        cells := cells + [x.value];
      }
      assert Ones(0) == 0 by { NoOnes(); }
      r := Some(cells);
      assert cells + [] == cells;
    }

    /** Reads a value slot to see that it is all there; its first two bytes tell how much follows. */
    method ValidatePayload(c: S.TableConfig, index: nat) returns (r: Option<seq<byte>>)
      requires Valid()
      modifies this`pos, this`hashed
      ensures Valid() && match TakePayload(c, index, old(Rest()))
        case None => r == None
        case Some(g) => r == Some(g.value) && Rest() == g.rest
    {
      hide UnLE, S.IsTombstone, S.IsMulti, S.SizeField;
      if index == 0 {
        r := Read(16);
        return;
      }
      ghost var b := Rest();
      var head := Read(S.SIZE_SIZE);
      if head.None? {
        return None;
      }
      SameExtent(c, b);
      var more;
      if S.IsTombstone(head.value) {
        more := Read(S.INDEX_SIZE);
      } else if c.multipart && S.IsMulti(head.value) {
        more := Read(c.entrySize - S.SIZE_SIZE);
      } else {
        more := Read(S.SizeField(head.value));
      }
      if more.None? {
        return None;
      }
      r := Some(head.value + more.value);
      TakeTwice(b, S.SIZE_SIZE, S.Extent(c, b));
    }

    /** Reads a value slot and writes it to the table file; the same bytes are used as in validation. */
    method EnactPayload(file: TableFile, index: nat) returns (ok: bool)
      requires Valid()
      modifies this`pos, this`hashed, file
      ensures Valid() && match TakePayload(file.config, index, old(Rest()))
        case None => !ok && file.slots == old(file.slots)
        case Some(g) => ok && Rest() == g.rest && file.slots == Overwritten(old(file.slots), index, g.value)
    {
      hide UnLE, S.IsTombstone, S.IsMulti, S.SizeField, Overwritten;
      if index == 0 {
        var header := Read(16);
        if header.None? {
          return false;
        }
        file.WriteAt(0, header.value);
        return true;
      }
      ghost var b := Rest();
      var buf := Read(S.SIZE_SIZE);
      if buf.None? {
        return false;
      }
      SameExtent(file.config, b);
      var size := if S.IsTombstone(buf.value) then S.SIZE_SIZE + S.INDEX_SIZE
                  else if file.config.multipart && S.IsMulti(buf.value) then file.config.entrySize
                  else S.SIZE_SIZE + S.SizeField(buf.value);
      var more := Read(size - S.SIZE_SIZE);
      if more.None? {
        return false;
      }
      TakeTwice(b, S.SIZE_SIZE, S.Extent(file.config, b));
      file.WriteAt(index, buf.value + more.value);
      return true;
    }

    /** Reads a page to see that it is all there and belongs to the table. */
    method ValidatePage(t: nat, i: nat) returns (r: Option<Item>)
      requires Valid()
      modifies this`pos, this`hashed
      ensures Valid() && match TakePage(t, i, old(Rest()))
        case None => r == None
        case Some(g) => r == Some(g.value) && Rest() == g.rest
    {
      hide TakeNumber, TakeCells, Ones, TotalEntries;
      if i >= TotalEntries(t) {
        return None;
      }
      var mask := ReadNumber(8);
      if mask.None? {
        return None;
      }
      var entries := ReadEntries(mask.value);
      if entries.None? {
        return None;
      }
      return Some(PageItem(t, i, mask.value, entries.value));
    }

    /**
     * Reads a page into the stored one. The same item is read as in validation, which also checks the page number, and
     * exactly its entries end up on the page, at the places the mask names.
     */
    method EnactPage(ghost t: nat, ghost i: nat, chunk: array<seq<byte>>) returns (ok: bool)
      requires Valid() && chunk.Length == CHUNK_ENTRIES
      modifies this`pos, this`hashed, chunk
      ensures Valid() && match TakeMasked(t, i, old(Rest()))
        case None => !ok
        case Some(g) => ok && Rest() == g.rest && chunk[..] == Spread(g.value.mask, g.value.entries, old(chunk[..]), 0)
    {
      hide TakeNumber, TakeCells, Spread, Ones, Pow2;
      var mask := ReadNumber(8);
      if mask.None? {
        return false;
      }
      MaskFits(old(Rest()));
      ok := EnactEntries(mask.value, chunk);
    }

    /** The loop over the set bits of the mask. */
    method EnactEntries(mask: nat, chunk: array<seq<byte>>) returns (ok: bool)
      requires Valid() && chunk.Length == CHUNK_ENTRIES && mask < Pow2(64)
      modifies this`pos, this`hashed, chunk
      ensures Valid() && match TakeCells(old(Rest()), Ones(mask))
        case None => !ok
        case Some(g) => ok && Rest() == g.rest && chunk[..] == Spread(mask, g.value, old(chunk[..]), 0)
    {
      hide Picks, Pow2, TrailingZeros, BitSet, Spread, Ones, TakeCells;
      ghost var whole := TakeCells(Rest(), Ones(mask));
      ghost var page := if whole.Some? then Spread(mask, whole.value.value, chunk[..], 0) else chunk[..];
      if whole.Some? {
        CellCount(Rest(), Ones(mask));
        PicksOfSpread(mask, whole.value.value, chunk[..], 0);
      }
      var m: nat := mask;
      while m != 0
        invariant Valid() && m <= mask
        invariant if whole.Some? then TakeCells(Rest(), Ones(m)) == Some(Got(Picks(m, page, 0), whole.value.rest))
          else TakeCells(Rest(), Ones(m)) == None
        invariant forall i :: 0 <= i < CHUNK_ENTRIES ==> BitSet(m, i) ==> BitSet(mask, i)
        invariant whole.Some? ==> forall i :: 0 <= i < CHUNK_ENTRIES ==>
          chunk[i] == if BitSet(mask, i) && !BitSet(m, i) then page[i] else old(chunk[i])
        decreases m
      {
        LowestBit(m, 0);
        LowestFits(m, 64);
        OnesStep(m);
        if whole.Some? {
          PickLowest(m, page, 0);
        }
        var i := TrailingZeros(m);
        forall j | 0 <= j < CHUNK_ENTRIES
          ensures BitSet(m - Pow2(i), j) <==> BitSet(m, j) && j != i
        {
          LowestBit(m, j);
        }
        CellsFirst(Rest(), Ones(m));
        m := m - Pow2(i);
        var x := Read(ENTRY_BYTES);
        if x.None? {
          return false;
        }
        if whole.Some? {
          SameFirst(x.value, TakeCells(Rest(), Ones(m)).value.value, page[i], Picks(m, page, 0));
        }
        chunk[i] := x.value;
      }
      NoOnes();
      CellsNone(Rest());
      PicksNone(page);
      forall i | 0 <= i < CHUNK_ENTRIES
        ensures chunk[i] == page[i]
      {
        NoBits(i);
        if !BitSet(mask, i) {
          SpreadKeeps(mask, whole.value.value, old(chunk[..]), 0, i);
        }
      }
      return true;
    }

    method ReadItem(cfg: Configs) returns (r: Option<Item>)
      requires Valid() && Rest() != []
      modifies this`pos, this`hashed
      ensures Valid() && match TakeItem(cfg, old(Rest()))
        case None => r == None
        case Some(g) => r == Some(g.value) && Rest() == g.rest
    {
      hide TakeNumber, TakePayload, TakePage;
      ghost var b := Rest();
      var k := Read(1);
      var kind := k.value[0];
      assert kind == b[0] && Rest() == b[1..];
      if kind != INSERT_INDEX && kind != INSERT_VALUE && kind != DROP_TABLE {
        return None;
      }
      var t := ReadNumber(2);
      if t.None? {
        return None;
      }
      if kind == DROP_TABLE {
        return Some(DropItem(t.value));
      }
      var i := ReadNumber(8);
      if i.None? {
        return None;
      }
      if kind == INSERT_INDEX {
        r := ValidatePage(t.value, i.value);
        return;
      }
      var d := ValidatePayload(cfg(t.value), i.value);
      if d.None? {
        return None;
      }
      return Some(ValueItem(t.value, i.value, d.value));
    }

    /** Reads and validates the record at the current position. */
    method ReadRecord(cfg: Configs, crc: Checksum) returns (r: Option<LogRecord>)
      requires Valid() && start == pos
      modifies this
      ensures Valid() && match TakeRecord(cfg, crc, old(Rest()))
        case None => r == None
        case Some(g) => r == Some(g.value) && Rest() == g.rest && start == pos
    {
      hide TakeNumber, TakeItem, TakeItems;
      ghost var b := Rest();
      var kind := Read(1);
      if kind.None? || kind.value[0] != BEGIN_RECORD {
        return None;
      }
      assert Rest() == b[1..];
      var id := ReadNumber(8);
      if id.None? {
        return None;
      }
      ghost var all := Rest();
      var items := ReadItems(cfg);
      if items.None? {
        return None;
      }
      ghost var last := Rest();
      var _ := Read(1);
      assert Rest() == last[1..] && hashed == b[..|b| - |last| + 1];
      var sum := crc(hashed);
      var stored := ReadNumber(4);
      if stored.None? || stored.value != sum {
        return None;
      }
      start, hashed := pos, [];
      r := Some(LogRecord(id.value, items.value));
    }

    /** Items up to the end mark. */
    method ReadItems(cfg: Configs) returns (r: Option<seq<Item>>)
      requires Valid()
      modifies this`pos, this`hashed
      ensures Valid() && match TakeItems(cfg, old(Rest()))
        case None => r == None
        case Some(g) => r == Some(g.value) && Rest() == g.rest
    {
      hide TakeItem;
      var items := [];
      NoItems(TakeItems(cfg, Rest()));
      while true
        invariant Valid() && TakeItems(cfg, old(Rest())) == WithItems(items, TakeItems(cfg, Rest()))
        decreases |Rest()|
      {
        if pos == |data| {
          return None;
        }
        if data[pos] == END_RECORD {
          assert items + [] == items;
          return Some(items);
        }
        var it := ReadItem(cfg);
        if it.None? {
          return None;
        }
        ItemsStep(items, it.value, TakeItems(cfg, Rest()));
        items := items + [it.value];
      }
    }
  }

  lemma SameExtent(c: S.TableConfig, b: seq<byte>)
    requires |b| >= S.SIZE_SIZE
    ensures S.Extent(c, b[..2]) == S.Extent(c, b) >= S.SIZE_SIZE
  {
    assert b[..2][..2] == b[..2];
  }

  lemma TakeTwice(b: seq<byte>, m: nat, n: nat)
    requires m <= n <= |b|
    ensures b[..m] + b[m..][..n - m] == b[..n] && b[m..][n - m..] == b[n..]
  {
  }

  /** A number read from eight bytes is a 64-bit mask. */
  lemma MaskFits(b: seq<byte>)
    ensures TakeNumber(b, 8).Some? ==> TakeNumber(b, 8).value.value < Pow2(64)
  {
    hide Pow2, LE, UnLE;
    if |b| >= 8 {
      LEofUnLE(b[..8]);
      Widths();
      SixtyFour();
    }
  }

  lemma {:induction false} CellCount(b: seq<byte>, n: nat)
    ensures TakeCells(b, n).Some? ==> |TakeCells(b, n).value.value| == n
  {
    if n > 0 && Take(b, ENTRY_BYTES).Some? {
      CellCount(Take(b, ENTRY_BYTES).value.rest, n - 1);
    }
  }

  lemma CellsFirst(b: seq<byte>, n: nat)
    requires n > 0
    ensures TakeCells(b, n) == match Take(b, ENTRY_BYTES)
      case None => None
      case Some(g) => WithCells([g.value], TakeCells(g.rest, n - 1))
  {
  }

  lemma SameFirst(x: seq<byte>, a: seq<seq<byte>>, y: seq<byte>, b: seq<seq<byte>>)
    requires [x] + a == [y] + b
    ensures x == y && a == b
  {
    assert ([x] + a)[0] == x && ([y] + b)[0] == y;
    assert ([x] + a)[1..] == a && ([y] + b)[1..] == b;
  }

  lemma CellsNone(b: seq<byte>)
    ensures TakeCells(b, 0) == Some(Got([], b))
  {
  }

  ghost function WithCells(cells: seq<seq<byte>>, r: Option<Got<seq<seq<byte>>>>): Option<Got<seq<seq<byte>>>> {
    match r
    case None => None
    case Some(g) => Some(Got(cells + g.value, g.rest))
  }

  lemma NoCells(r: Option<Got<seq<seq<byte>>>>)
    ensures WithCells([], r) == r
  {
    if r.Some? {
      assert [] + r.value.value == r.value.value;
    }
  }

  lemma CellsStep(cells: seq<seq<byte>>, x: seq<byte>, r: Option<Got<seq<seq<byte>>>>)
    ensures WithCells(cells + [x], r) == WithCells(cells, WithCells([x], r))
  {
    if r.Some? {
      assert cells + [x] + r.value.value == cells + ([x] + r.value.value);
    }
  }

  ghost function WithItems(items: seq<Item>, r: Option<Got<seq<Item>>>): Option<Got<seq<Item>>> {
    match r
    case None => None
    case Some(g) => Some(Got(items + g.value, g.rest))
  }

  lemma NoItems(r: Option<Got<seq<Item>>>)
    ensures WithItems([], r) == r
  {
    if r.Some? {
      assert [] + r.value.value == r.value.value;
    }
  }

  lemma ItemsStep(items: seq<Item>, x: Item, r: Option<Got<seq<Item>>>)
    ensures WithItems(items + [x], r) == WithItems(items, WithItems([x], r))
  {
    if r.Some? {
      assert items + [x] + r.value.value == items + ([x] + r.value.value);
    }
  }
}
