/** Log files cut off in the middle of a record. */
module LogCuts {
  import opened Keys
  import opened Bytes
  import opened Masks
  import opened LogCodec
  import S = Slots

  // Bytes that follow do not change what is read.

  lemma TakeLonger(b: seq<byte>, n: nat, x: seq<byte>)
    requires n <= |b|
    ensures Take(b + x, n) == Some(Got(b[..n], b[n..] + x))
  {
    assert (b + x)[..n] == b[..n] && (b + x)[n..] == b[n..] + x;
  }

  lemma NumberLonger(b: seq<byte>, n: nat, x: seq<byte>)
    requires TakeNumber(b, n).Some?
    ensures TakeNumber(b + x, n) == Some(Got(TakeNumber(b, n).value.value, TakeNumber(b, n).value.rest + x))
  {
    hide UnLE;
    TakeLonger(b, n, x);
  }

  lemma {:induction false} CellsLonger(b: seq<byte>, n: nat, x: seq<byte>)
    requires TakeCells(b, n).Some?
    ensures TakeCells(b + x, n) == Some(Got(TakeCells(b, n).value.value, TakeCells(b, n).value.rest + x))
  {
    if n > 0 {
      TakeLonger(b, ENTRY_BYTES, x);
      CellsLonger(b[ENTRY_BYTES..], n - 1, x);
    }
  }

  lemma PayloadLonger(c: S.Config, index: nat, b: seq<byte>, x: seq<byte>)
    requires TakePayload(c, index, b).Some?
    ensures TakePayload(c, index, b + x) ==
      Some(Got(TakePayload(c, index, b).value.value, TakePayload(c, index, b).value.rest + x))
  {
    if index == 0 {
      TakeLonger(b, 16, x);
    } else {
      assert (b + x)[..2] == b[..2];
      TakeLonger(b, S.Extent(c, b), x);
    }
  }

  lemma PageLonger(t: nat, i: nat, b: seq<byte>, x: seq<byte>)
    requires TakePage(t, i, b).Some?
    ensures TakePage(t, i, b + x) == Some(Got(TakePage(t, i, b).value.value, TakePage(t, i, b).value.rest + x))
  {
    hide TakeNumber, TakeCells, TotalEntries;
    NumberLonger(b, 8, x);
    var m := TakeNumber(b, 8).value;
    CellsLonger(m.rest, Ones(m.value), x);
  }

  lemma ItemLonger(cfg: Configs, b: seq<byte>, x: seq<byte>)
    requires TakeItem(cfg, b).Some?
    ensures TakeItem(cfg, b + x) == Some(Got(TakeItem(cfg, b).value.value, TakeItem(cfg, b).value.rest + x))
  {
    hide TakeNumber, TakePayload, TakePage;
    assert (b + x)[1..] == b[1..] + x;
    NumberLonger(b[1..], 2, x);
    var t := TakeNumber(b[1..], 2).value;
    if b[0] != DROP_TABLE {
      NumberLonger(t.rest, 8, x);
      var i := TakeNumber(t.rest, 8).value;
      if b[0] == INSERT_INDEX {
        PageLonger(t.value, i.value, i.rest, x);
      } else {
        PayloadLonger(cfg(t.value), i.value, i.rest, x);
      }
    }
  }

  lemma {:induction false} ItemsLonger(cfg: Configs, b: seq<byte>, x: seq<byte>)
    requires TakeItems(cfg, b).Some?
    ensures TakeItems(cfg, b + x) == Some(Got(TakeItems(cfg, b).value.value, TakeItems(cfg, b).value.rest + x))
    decreases |b|
  {
    hide TakeItem;
    if b[0] != END_RECORD {
      ItemLonger(cfg, b, x);
      ItemsLonger(cfg, TakeItem(cfg, b).value.rest, x);
    }
  }

  lemma RecordLonger(cfg: Configs, crc: Checksum, b: seq<byte>, x: seq<byte>)
    requires TakeRecord(cfg, crc, b).Some?
    ensures var g := TakeRecord(cfg, crc, b).value; TakeRecord(cfg, crc, b + x) == Some(Got(g.value, g.rest + x))
  {
    hide TakeNumber, TakeItems;
    assert (b + x)[1..] == b[1..] + x;
    NumberLonger(b[1..], 8, x);
    var id := TakeNumber(b[1..], 8).value;
    ItemsLonger(cfg, id.rest, x);
    var items := TakeItems(cfg, id.rest).value;
    var n := |b| - |items.rest| + 1;
    assert (b + x)[..n] == b[..n] && (items.rest + x)[1..] == items.rest[1..] + x;
    NumberLonger(items.rest[1..], 4, x);
  }

  ghost predicate RecordOk(cfg: Configs, r: LogRecord) {
    r.id < U64 && forall j :: 0 <= j < |r.items| ==> ItemOk(cfg, r.items[j])
  }

  /** A record cut off anywhere is refused, whatever the checksum function. */
  lemma CutRefused(cfg: Configs, crc: Checksum, r: LogRecord, n: nat)
    requires RecordOk(cfg, r) && n < |EncodeRecord(crc, r)|
    ensures TakeRecord(cfg, crc, EncodeRecord(crc, r)[..n]) == None
  {
    hide TakeRecord, EncodeRecord, ItemOk;
    var e := EncodeRecord(crc, r);
    TakeRecordOf(cfg, crc, r, []);
    assert e[..n] + e[n..] == e == e + [];
    if TakeRecord(cfg, crc, e[..n]).Some? {
      RecordLonger(cfg, crc, e[..n], e[n..]);
    }
  }

  // Files.

  function EncodeAll(crc: Checksum, rs: seq<LogRecord>): seq<byte> {
    if rs == [] then [] else EncodeRecord(crc, rs[0]) + EncodeAll(crc, rs[1..])
  }

  /** The records read off a file until one is not whole, and the bytes left then. */
  function TakeAll(cfg: Configs, crc: Checksum, b: seq<byte>): Got<seq<LogRecord>>
    decreases |b|
  {
    match TakeRecord(cfg, crc, b)
    case None => Got([], b)
    case Some(g) =>
      if |g.rest| >= |b| then Got([], b)
      else
        var more := TakeAll(cfg, crc, g.rest);
        Got([g.value] + more.value, more.rest)
  }

  lemma {:induction false} RecordSize(crc: Checksum, r: LogRecord)
    ensures |EncodeRecord(crc, r)| >= 14
  {
    hide LE, EncodeItems;
  }

  /**
   * Of a log file cut off after any number of bytes exactly the records before the cut are read, and what is left is
   * the beginning of the next one, not all of it.
   */
  lemma {:induction false} CutFile(cfg: Configs, crc: Checksum, rs: seq<LogRecord>, n: nat) returns (k: nat)
    requires (forall j :: 0 <= j < |rs| ==> RecordOk(cfg, rs[j])) && n <= |EncodeAll(crc, rs)|
    ensures k <= |rs| && TakeAll(cfg, crc, EncodeAll(crc, rs)[..n]).value == rs[..k]
    ensures |EncodeAll(crc, rs[..k])| <= n
    ensures TakeAll(cfg, crc, EncodeAll(crc, rs)[..n]).rest == EncodeAll(crc, rs)[|EncodeAll(crc, rs[..k])|..n]
    ensures k < |rs| ==> n < |EncodeAll(crc, rs[..k])| + |EncodeRecord(crc, rs[k])|
    ensures k == |rs| ==> n == |EncodeAll(crc, rs)|
  {
    hide TakeRecord, EncodeRecord, RecordOk;
    var all := EncodeAll(crc, rs);
    var b := all[..n];
    if rs == [] {
      k := 0;
      assert b == [];
      EmptyRefused(cfg, crc);
    } else {
      var e, later := EncodeRecord(crc, rs[0]), EncodeAll(crc, rs[1..]);
      RecordSize(crc, rs[0]);
      if n < |e| {
        k := 0;
        assert b == e[..n];
        CutRefused(cfg, crc, rs[0], n);
        assert rs[..0] == [] && all[0..n] == b;
      } else {
        var c := later[..n - |e|];
        assert b == e + c;
        assert RecordOk(cfg, rs[0]);
        WholeTaken(cfg, crc, rs[0], c);
        k := CutFile(cfg, crc, rs[1..], n - |e|);
        assert rs[..k + 1] == [rs[0]] + rs[1..][..k];
        CutEncoded(crc, rs, k);
        var m := |EncodeAll(crc, rs[1..][..k])|;
        assert all[|e| + m..n] == later[m..n - |e|];
        k := k + 1;
      }
    }
  }

  lemma CutEncoded(crc: Checksum, rs: seq<LogRecord>, k: nat)
    requires rs != [] && k <= |rs| - 1
    ensures |EncodeAll(crc, rs[..k + 1])| == |EncodeRecord(crc, rs[0])| + |EncodeAll(crc, rs[1..][..k])|
  {
    hide EncodeRecord;
    assert rs[..k + 1][1..] == rs[1..][..k];
  }

  lemma WholeTaken(cfg: Configs, crc: Checksum, r: LogRecord, rest: seq<byte>)
    requires RecordOk(cfg, r)
    ensures TakeRecord(cfg, crc, EncodeRecord(crc, r) + rest) == Some(Got(r, rest))
  {
    hide ItemOk;
    TakeRecordOf(cfg, crc, r, rest);
  }

  lemma EmptyRefused(cfg: Configs, crc: Checksum)
    ensures TakeRecord(cfg, crc, []) == None
  {
  }
}
