/** Which bytes are accepted as log records: those that some record is written as, and no others. */
module LogExact {
  import opened Keys
  import opened Bytes
  import opened Masks
  import opened LogCodec
  import opened LogCuts
  import Words
  import S = Slots

  // What has been read, written again, is what was there.

  lemma NumberBack(b: seq<byte>, n: nat)
    requires TakeNumber(b, n).Some?
    ensures var g := TakeNumber(b, n).value; b == LE(g.value, n) + g.rest && g.value < Pow256(n)
  {
    hide LE, UnLE, Pow256;
    LEofUnLE(b[..n]);
    assert b == b[..n] + b[n..];
  }

  lemma {:induction false} CellsBack(b: seq<byte>, n: nat)
    requires TakeCells(b, n).Some?
    ensures var g := TakeCells(b, n).value;
      && b == Concat(g.value) + g.rest && |g.value| == n
      && forall j :: 0 <= j < n ==> |g.value[j]| == ENTRY_BYTES
  {
    var g := TakeCells(b, n).value;
    if n == 0 {
      assert b == [] + b;
    } else {
      var rest := b[ENTRY_BYTES..];
      CellsBack(rest, n - 1);
      var more := TakeCells(rest, n - 1).value;
      assert g.value[1..] == more.value;
      assert b == b[..ENTRY_BYTES] + (Concat(more.value) + more.rest);
    }
  }

  lemma PayloadBack(c: S.Config, index: nat, b: seq<byte>)
    requires TakePayload(c, index, b).Some? && (index != 0 && |b| >= S.SIZE_SIZE ==> S.Extent(c, b) >= S.SIZE_SIZE)
    ensures var g := TakePayload(c, index, b).value; b == g.value + g.rest && PayloadOk(c, index, g.value)
  {
    var g := TakePayload(c, index, b).value;
    if index != 0 {
      assert g.value[..2] == b[..2];
    }
  }

  lemma PageBack(t: nat, i: nat, b: seq<byte>)
    requires TakePage(t, i, b).Some?
    ensures var g := TakePage(t, i, b).value;
      && g.value.PageItem? && g.value.table == t && g.value.index == i && i < TotalEntries(t)
      && g.value.mask < U64 && |g.value.entries| == Ones(g.value.mask)
      && (forall j :: 0 <= j < |g.value.entries| ==> |g.value.entries[j]| == ENTRY_BYTES)
      && b == LE(g.value.mask, 8) + (Concat(g.value.entries) + g.rest)
  {
    hide TakeNumber, TakeCells, TotalEntries, Ones, LE, Concat;
    Widths();
    NumberBack(b, 8);
    var m := TakeNumber(b, 8).value;
    CellsBack(m.rest, Ones(m.value));
  }

  lemma ItemBack(cfg: Configs, b: seq<byte>)
    requires TakeItem(cfg, b).Some?
    ensures var g := TakeItem(cfg, b).value; b == EncodeItem(g.value) + g.rest && ItemOk(cfg, g.value)
  {
    hide TakeNumber, TakePayload, TakePage, LE, Concat, Ones, TotalEntries, PayloadOk, S.Extent;
    var g := TakeItem(cfg, b).value;
    Widths();
    NumberBack(b[1..], 2);
    var t := TakeNumber(b[1..], 2).value;
    assert b == [b[0]] + (LE(t.value, 2) + t.rest);
    if b[0] == DROP_TABLE {
      assert b == [DROP_TABLE] + LE(t.value, 2) + t.rest;
    } else {
      NumberBack(t.rest, 8);
      var i := TakeNumber(t.rest, 8).value;
      if b[0] == INSERT_INDEX {
        PageBack(t.value, i.value, i.rest);
        Regroup4(INSERT_INDEX, LE(t.value, 2), LE(i.value, 8), LE(g.value.mask, 8), Concat(g.value.entries), g.rest);
      } else {
        ExtentLeast(cfg(t.value), i.rest);
        PayloadBack(cfg(t.value), i.value, i.rest);
        Regroup3(INSERT_VALUE, LE(t.value, 2), LE(i.value, 8), g.value.data, g.rest);
      }
    }
  }

  lemma ExtentLeast(c: S.TableConfig, b: seq<byte>)
    ensures |b| >= S.SIZE_SIZE ==> S.Extent(c, b) >= S.SIZE_SIZE
  {
  }

  lemma {:induction false} ItemsBack(cfg: Configs, b: seq<byte>)
    requires TakeItems(cfg, b).Some?
    ensures var g := TakeItems(cfg, b).value;
      b == EncodeItems(g.value) + g.rest && forall j :: 0 <= j < |g.value| ==> ItemOk(cfg, g.value[j])
    decreases |b|
  {
    hide TakeItem, EncodeItem, ItemOk;
    var g := TakeItems(cfg, b).value;
    if b[0] == END_RECORD {
      assert b == [] + b;
    } else {
      ItemBack(cfg, b);
      var it := TakeItem(cfg, b).value;
      ItemsBack(cfg, it.rest);
      var more := TakeItems(cfg, it.rest).value;
      assert g.value[0] == it.value && g.value[1..] == more.value;
      assert b == EncodeItem(it.value) + EncodeItems(more.value) + more.rest;
    }
  }

  /** Whatever bytes are accepted as a record are that record as it is written, checksum included. */
  lemma RecordBack(cfg: Configs, crc: Checksum, b: seq<byte>)
    requires TakeRecord(cfg, crc, b).Some?
    ensures var g := TakeRecord(cfg, crc, b).value; b == EncodeRecord(crc, g.value) + g.rest && RecordOk(cfg, g.value)
  {
    hide TakeNumber, TakeItems, EncodeItems, ItemOk, LE, UnLE;
    var g := TakeRecord(cfg, crc, b).value;
    Widths();
    NumberBack(b[1..], 8);
    var id := TakeNumber(b[1..], 8).value;
    ItemsBack(cfg, id.rest);
    var items := TakeItems(cfg, id.rest).value;
    NumberBack(items.rest[1..], 4);
    var sum := TakeNumber(items.rest[1..], 4).value;
    assert b == [BEGIN_RECORD] + b[1..] && items.rest == [END_RECORD] + items.rest[1..];
    RecordBytes(LE(id.value, 8), EncodeItems(items.value), LE(sum.value, 4), sum.rest);
  }

  /** Bytes are accepted as a record, with these ones left, exactly if they are the record as it is written. */
  lemma RecordExact(cfg: Configs, crc: Checksum, b: seq<byte>, r: LogRecord, rest: seq<byte>)
    ensures TakeRecord(cfg, crc, b) == Some(Got(r, rest)) <==> b == EncodeRecord(crc, r) + rest && RecordOk(cfg, r)
  {
    hide TakeRecord, EncodeRecord, ItemOk;
    if TakeRecord(cfg, crc, b) == Some(Got(r, rest)) {
      RecordBack(cfg, crc, b);
    }
    if b == EncodeRecord(crc, r) + rest && RecordOk(cfg, r) {
      TakeRecordOf(cfg, crc, r, rest);
    }
  }

  // The checksum.

  /** Of accepted bytes the last four used are the checksum of all those before them. */
  lemma ChecksumCovers(cfg: Configs, crc: Checksum, b: seq<byte>)
    requires TakeRecord(cfg, crc, b).Some?
    ensures var n := |b| - |TakeRecord(cfg, crc, b).value.rest|; 4 <= n <= |b| && UnLE(b[n - 4..n]) == crc(b[..n - 4])
  {
    hide TakeRecord, EncodeBody, UnLE, LE, ItemOk;
    RecordBack(cfg, crc, b);
    var g := TakeRecord(cfg, crc, b).value;
    var body := EncodeBody(g.value);
    var n := |body| + 4;
    Widths();
    UnLEofLE(crc(body), 4);
    assert b[..n - 4] == body && b[n - 4..n] == LE(crc(body), 4);
  }

  /** A record with any four bytes in the place of its checksum is accepted exactly if they are its checksum. */
  lemma ChecksumDecides(cfg: Configs, crc: Checksum, r: LogRecord, sum: Sum, rest: seq<byte>)
    requires RecordOk(cfg, r)
    ensures TakeRecord(cfg, crc, EncodeBody(r) + LE(sum, 4) + rest) ==
      if sum == crc(EncodeBody(r)) then Some(Got(r, rest)) else None
  {
    hide LE, UnLE, TakeNumber, TakeItems, EncodeItems, ItemOk;
    var items := EncodeItems(r.items);
    var tail := [END_RECORD] + (LE(sum, 4) + rest);
    RecordBytes(LE(r.id, 8), items, LE(sum, 4), rest);
    Behind(BEGIN_RECORD, LE(r.id, 8) + (items + tail));
    Widths();
    TakeNumberOf(r.id, 8, items + tail);
    TakeItemsOf(cfg, r.items, LE(sum, 4) + rest);
    Behind(END_RECORD, LE(sum, 4) + rest);
    TakeNumberOf(sum, 4, rest);
  }

  /** Reading a file stops at the first bytes that are no record, and has read every record before them. */
  lemma {:induction false} StopsAtDamage(cfg: Configs, crc: Checksum, rs: seq<LogRecord>, b: seq<byte>)
    requires (forall j :: 0 <= j < |rs| ==> RecordOk(cfg, rs[j])) && TakeRecord(cfg, crc, b) == None
    ensures TakeAll(cfg, crc, EncodeAll(crc, rs) + b) == Got(rs, b)
  {
    hide TakeRecord, EncodeRecord, RecordOk;
    if rs == [] {
      assert EncodeAll(crc, rs) + b == b;
    } else {
      var more := EncodeAll(crc, rs[1..]) + b;
      assert EncodeAll(crc, rs) + b == EncodeRecord(crc, rs[0]) + more;
      assert RecordOk(cfg, rs[0]);
      WholeTaken(cfg, crc, rs[0], more);
      RecordSize(crc, rs[0]);
      StopsAtDamage(cfg, crc, rs[1..], b);
      assert [rs[0]] + rs[1..] == rs;
    }
  }

  /** So nothing from a record with a wrong checksum on is replayed. */
  lemma WrongChecksumStops(cfg: Configs, crc: Checksum, rs: seq<LogRecord>, r: LogRecord, sum: Sum, rest: seq<byte>)
    requires (forall j :: 0 <= j < |rs| ==> RecordOk(cfg, rs[j])) && RecordOk(cfg, r) && sum != crc(EncodeBody(r))
    ensures TakeAll(cfg, crc, EncodeAll(crc, rs) + (EncodeBody(r) + LE(sum, 4) + rest)).value == rs
  {
    hide TakeRecord, TakeAll, EncodeAll, EncodeBody, RecordOk, LE;
    ChecksumDecides(cfg, crc, r, sum, rest);
    StopsAtDamage(cfg, crc, rs, EncodeBody(r) + LE(sum, 4) + rest);
  }

  // Page numbers.

  /** A page number is accepted exactly if it is below sixty-four times the number of pages its table's id tells. */
  lemma PageRange(cfg: Configs, t: nat, i: nat, m: nat, entries: seq<seq<byte>>, rest: seq<byte>)
    requires t < U16 && i < U64 && m < U64 && |entries| == Ones(m)
    requires forall j :: 0 <= j < |entries| ==> |entries[j]| == ENTRY_BYTES
    ensures TakeItem(cfg, EncodeItem(PageItem(t, i, m, entries)) + rest).Some? <==> i < 64 * Words.Pow2(t % 256)
  {
    hide LE, UnLE, TakeNumber, TakePayload, Ones, Concat, Words.Pow2, TakeMasked;
    var it := PageItem(t, i, m, entries);
    if i < TotalEntries(t) {
      TakePageItem(cfg, it, rest);
    } else {
      var tail := LE(m, 8) + (Concat(entries) + rest);
      Regroup4(INSERT_INDEX, LE(t, 2), LE(i, 8), LE(m, 8), Concat(entries), rest);
      Behind(INSERT_INDEX, LE(t, 2) + (LE(i, 8) + tail));
      Widths();
      TakeNumberOf(t, 2, LE(i, 8) + tail);
      TakeNumberOf(i, 8, tail);
    }
  }

  // Where things are.

  lemma {:induction false} ConcatAt(cells: seq<seq<byte>>, k: nat)
    requires (forall j :: 0 <= j < |cells| ==> |cells[j]| == ENTRY_BYTES) && k < |cells|
    ensures |Concat(cells)| == 8 * |cells| && Concat(cells)[8 * k..8 * k + 8] == cells[k]
  {
    var more := cells[1..];
    if |cells| > 1 {
      ConcatAt(more, if k == 0 then 0 else k - 1);
    }
    var c := Concat(cells);
    if k == 0 {
      assert c[..8] == cells[0];
    } else {
      assert c[8..] == Concat(more) && c[8 * k..8 * k + 8] == c[8..][8 * (k - 1)..8 * (k - 1) + 8];
    }
  }

  /** An item in the log: its kind, the table, the slot or page, and of a page the mask and the entries. */
  lemma ItemLayout(cfg: Configs, it: Item)
    requires ItemOk(cfg, it)
    ensures |EncodeItem(it)| >= 3 && UnLE(EncodeItem(it)[1..3]) == it.table
    ensures var e := EncodeItem(it);
      match it
      case PageItem(_, i, m, entries) =>
        && e[0] == 2 && |e| == 19 + 8 * |entries| && UnLE(e[3..11]) == i && UnLE(e[11..19]) == m
        && forall k :: 0 <= k < |entries| ==> e[19 + 8 * k..27 + 8 * k] == entries[k]
      case ValueItem(_, i, d) => e[0] == 3 && |e| == 11 + |d| && UnLE(e[3..11]) == i && e[11..] == d
      case DropItem(_) => e[0] == 5 && |e| == 3
  {
    hide LE, UnLE, Concat, Ones, TotalEntries, PayloadOk;
    var e := EncodeItem(it);
    Widths();
    UnLEofLE(it.table, 2);
    assert e[1..3] == LE(it.table, 2);
    if !it.DropItem? {
      UnLEofLE(it.index, 8);
      assert e[3..11] == LE(it.index, 8);
    }
    if it.PageItem? {
      UnLEofLE(it.mask, 8);
      var all := Concat(it.entries);
      assert e[11..19] == LE(it.mask, 8) && e[19..] == all;
      if it.entries == [] {
        NoConcat();
      } else {
        ConcatAt(it.entries, 0);
      }
      forall k | 0 <= k < |it.entries|
        ensures e[19 + 8 * k..27 + 8 * k] == it.entries[k]
      {
        ConcatAt(it.entries, k);
        assert e[19 + 8 * k..27 + 8 * k] == e[19..][8 * k..8 * k + 8];
      }
    }
  }

  lemma NoConcat()
    ensures Concat([]) == []
  {
  }

  /** A record in the log: its mark and id first, the end mark and the checksum of all before it last. */
  lemma RecordLayout(crc: Checksum, r: LogRecord)
    requires r.id < U64
    ensures var e := EncodeRecord(crc, r); var n := |e| - 4;
      && n >= 10 && e[0] == 1 && UnLE(e[1..9]) == r.id && e[n - 1] == 4 && UnLE(e[n..]) == crc(e[..n])
      && e[9..n - 1] == EncodeItems(r.items)
  {
    hide LE, UnLE, EncodeItems;
    var e, body := EncodeRecord(crc, r), EncodeBody(r);
    Widths();
    UnLEofLE(r.id, 8);
    UnLEofLE(crc(body), 4);
    assert e[1..9] == LE(r.id, 8) && e[..|body|] == body && e[|body|..] == LE(crc(body), 4);
  }
}
