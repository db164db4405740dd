/** The bytes a crash leaves of a log file, as the file images that recovery starts from. */
module LogImages {
  import opened Keys
  import opened Bytes
  import opened LogCodec
  import opened LogRecords
  import opened LogCuts
  import R = Records
  import L = LogStages
  import Recovery

  /** The bytes of the log file are these records, each written in some order. */
  ghost predicate FileHolds(cfg: Configs, f: L.LogFile, rs: seq<LogRecord>) {
    |rs| == |f.records| && forall j :: 0 <= j < |rs| ==> Written(cfg, f.records[j], rs[j])
  }

  ghost predicate Written(cfg: Configs, r: R.Record, l: LogRecord) {
    l.id == r.id && RecordOk(cfg, l) && Enumerates(r, l.items)
  }

  /** What is to be found in the bytes: the records read before one is not whole, and how many bytes are left then. */
  ghost function ImageOf(cfg: Configs, crc: Checksum, f: L.LogFile, b: seq<byte>): Recovery.FileImage
    requires f.records != [] && |TakeAll(cfg, crc, b).value| <= |f.records|
  {
    var got := TakeAll(cfg, crc, b);
    Recovery.FileImage(f.records[..|got.value|], |got.rest|, f.records[0].id)
  }

  ghost function EnactRead(t: R.Tables, rs: seq<LogRecord>): R.Tables {
    if rs == [] then t else EnactItems(EnactRead(t, rs[..|rs| - 1]), rs[|rs| - 1].items)
  }

  lemma {:induction false} ReadIsEnacted(cfg: Configs, t: R.Tables, f: L.LogFile, rs: seq<LogRecord>, k: nat)
    requires FileHolds(cfg, f, rs) && k <= |rs|
    ensures EnactRead(t, rs[..k]) == R.EnactAll(t, f.records[..k])
  {
    hide EnactItems, R.Enact, Enumerates, RecordOk;
    if k > 0 {
      ReadIsEnacted(cfg, t, f, rs, k - 1);
      assert rs[..k][..k - 1] == rs[..k - 1] && f.records[..k][..k - 1] == f.records[..k - 1];
      assert Written(cfg, f.records[k - 1], rs[k - 1]);
      EnumeratedIsEnacted(EnactRead(t, rs[..k - 1]), f.records[k - 1], rs[k - 1].items);
    }
  }

  /** Records cut off a file make it shorter. */
  lemma {:induction false} PrefixLength(crc: Checksum, rs: seq<LogRecord>, k: nat)
    requires k < |rs|
    ensures |EncodeAll(crc, rs[..k])| + |EncodeRecord(crc, rs[k])| <= |EncodeAll(crc, rs)|
  {
    hide EncodeRecord;
    if k > 0 {
      PrefixLength(crc, rs[1..], k - 1);
      CutEncoded(crc, rs, k - 1);
    } else {
      assert rs[..0] == [];
    }
  }

  /**
   * A log file cut off after any number of bytes, after all of them if it was synced, is an image that a crash can
   * leave of it; replaying what is read of it is enacting the records the image has whole.
   */
  lemma CutSurvives(cfg: Configs, crc: Checksum, f: L.LogFile, rs: seq<LogRecord>, n: nat)
    requires f.records != [] && FileHolds(cfg, f, rs) && n <= |EncodeAll(crc, rs)|
    requires f.synced ==> n == |EncodeAll(crc, rs)|
    ensures |TakeAll(cfg, crc, EncodeAll(crc, rs)[..n]).value| <= |f.records|
    ensures Recovery.Survives(f, ImageOf(cfg, crc, f, EncodeAll(crc, rs)[..n]))
    ensures forall t :: EnactRead(t, TakeAll(cfg, crc, EncodeAll(crc, rs)[..n]).value) ==
                        R.EnactAll(t, ImageOf(cfg, crc, f, EncodeAll(crc, rs)[..n]).whole)
  {
    hide TakeAll, EncodeAll, EncodeRecord, EnactRead, R.EnactAll, RecordOk, Enumerates;
    forall j | 0 <= j < |rs|
      ensures RecordOk(cfg, rs[j])
    {
      assert Written(cfg, f.records[j], rs[j]);
    }
    var k := CutFile(cfg, crc, rs, n);
    if k < |rs| {
      PrefixLength(crc, rs, k);
    } else {
      assert rs[..k] == rs && f.records[..k] == f.records;
    }
    forall t
      ensures EnactRead(t, rs[..k]) == R.EnactAll(t, f.records[..k])
    {
      ReadIsEnacted(cfg, t, f, rs, k);
    }
  }

  /**
   * The image is empty if no byte is left, and too short to be opened if fewer than nine are; otherwise the first nine
   * tell the id of the first record.
   */
  lemma CutHeader(cfg: Configs, crc: Checksum, f: L.LogFile, rs: seq<LogRecord>, n: nat)
    requires f.records != [] && FileHolds(cfg, f, rs) && n <= |EncodeAll(crc, rs)|
    ensures |TakeAll(cfg, crc, EncodeAll(crc, rs)[..n]).value| <= |f.records|
    ensures var im, b := ImageOf(cfg, crc, f, EncodeAll(crc, rs)[..n]), EncodeAll(crc, rs)[..n];
      && (im.Empty() <==> n == 0) && (im.Stub() <==> 0 < n < Recovery.RECORD_HEADER)
      && (n >= Recovery.RECORD_HEADER ==> b[0] == BEGIN_RECORD && UnLE(b[1..9]) == im.first)
  {
    hide TakeAll, EncodeAll, EncodeRecord, RecordOk, Enumerates;
    forall j | 0 <= j < |rs|
      ensures RecordOk(cfg, rs[j])
    {
      assert Written(cfg, f.records[j], rs[j]);
    }
    var k := CutFile(cfg, crc, rs, n);
    FirstBytes(cfg, crc, rs);
    if k > 0 {
      FirstLength(crc, rs[..k]);
    } else {
      assert rs[..k] == [];
      NoBytes(crc);
    }
    if n >= Recovery.RECORD_HEADER {
      assert EncodeAll(crc, rs)[..n][1..9] == EncodeAll(crc, rs)[1..9];
    }
  }

  lemma NoBytes(crc: Checksum)
    ensures EncodeAll(crc, []) == []
  {
  }

  lemma FirstLength(crc: Checksum, rs: seq<LogRecord>)
    requires rs != []
    ensures |EncodeAll(crc, rs)| >= 14
  {
    hide EncodeRecord;
    RecordSize(crc, rs[0]);
  }

  lemma FirstBytes(cfg: Configs, crc: Checksum, rs: seq<LogRecord>)
    requires rs != [] && RecordOk(cfg, rs[0])
    ensures var e := EncodeAll(crc, rs); |e| >= 14 && e[0] == BEGIN_RECORD && UnLE(e[1..9]) == rs[0].id
  {
    hide EncodeRecord, ItemOk;
    RecordSize(crc, rs[0]);
    RecordHeader(crc, rs[0]);
    assert EncodeAll(crc, rs)[1..9] == EncodeRecord(crc, rs[0])[1..9];
  }

  lemma RecordHeader(crc: Checksum, r: LogRecord)
    requires r.id < U64
    ensures var e := EncodeRecord(crc, r); |e| >= 14 && e[0] == BEGIN_RECORD && UnLE(e[1..9]) == r.id
  {
    hide LE, EncodeItems;
    RecordSize(crc, r);
    assert EncodeRecord(crc, r)[1..9] == LE(r.id, 8);
    UnLEofLE(r.id, 8);
  }
}
