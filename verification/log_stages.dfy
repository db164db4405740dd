/** Planned records, log files and the stages they move through. */
module LogStages {
  import opened Keys
  import opened Records

  const MAX_LOG_POOL_SIZE: nat := 16

  /** A log file: its records in order, its length in bytes, and whether all of it is known to be on disk. */
  datatype LogFile = LogFile(id: nat, records: seq<Record>, size: nat, synced: bool)

  /** The changes of one record while they are planned. */
  class LogWriter {
    const id: nat
    var slots: map<SlotId, Data>
    var pages: map<PageId, PageWrite>
    /** What the log overlay and the tables show to the planner. */
    ghost const base: Tables

    constructor (id: nat, ghost base: Tables)
      ensures Valid() && this.id == id && this.base == base && slots == map[] && pages == map[]
    {
      this.id, this.base := id, base;
      slots, pages := map[], map[];
    }

    ghost function Planned(): Record
      reads this
    {
      Record(id, slots, pages)
    }

    ghost predicate Valid()
      reads this
    {
      Fresh(base, Planned())
    }

    /** An index entry as the planner sees it, with its own changes so far. */
    ghost function Shown(p: PageId, i: nat): Data
      reads this
    {
      PageItem(base, Planned(), p, i)
    }

    method InsertValue(s: SlotId, data: Data)
      requires Valid()
      modifies this`slots
      ensures Valid() && Enact(base, Planned()) == old(Enact(base, Planned()))[Slot(s) := data]
    {
      hide Fresh, Enact;
      SlotPlanned(base, Planned(), s, data);
      slots := slots[s := data];
    }

    /** Entry `sub` of a page changes; the page given is the one the planner sees, but for that entry. */
    method InsertIndex(p: PageId, sub: nat, page: seq<Data>)
      requires Valid() && sub < CHUNK_ENTRIES == |page|
      requires forall i :: 0 <= i < CHUNK_ENTRIES && i != sub ==> page[i] == Shown(p, i)
      modifies this`pages
      ensures Valid() && forall i :: 0 <= i < CHUNK_ENTRIES ==> Shown(p, i) == page[i]
      ensures Enact(base, Planned()) == old(Enact(base, Planned()))[Item(p, sub) := page[sub]]
    {
      hide Fresh, Enact;
      ItemPlanned(base, Planned(), p, sub, page);
      ItemEnacted(base, Planned(), p, sub, page);
      if p in pages {
        pages := pages[p := PageWrite(pages[p].mask + {sub}, page)];
      } else {
        assert {} + {sub} == {sub};
        pages := pages[p := PageWrite({sub}, page)];
      }
      assert Planned() == Replanned(old(Planned()), p, sub, page);
    }
  }

  ghost function RecordsIn(f: Option<LogFile>): seq<Record> {
    if f.Some? then f.value.records else []
  }

  ghost function Flat(q: seq<LogFile>): seq<Record> {
    if q == [] then [] else Flat(q[..|q| - 1]) + q[|q| - 1].records
  }

  ghost function IdSeq(q: seq<LogFile>): seq<nat> {
    seq(|q|, i requires 0 <= i < |q| => q[i].id)
  }

  ghost function IdsOf(q: seq<LogFile>): multiset<nat> {
    multiset(IdSeq(q))
  }

  ghost function IdIn(f: Option<LogFile>): multiset<nat> {
    if f.Some? then multiset{f.value.id} else multiset{}
  }

  /** Consecutive ids, the last one just before `next`. */
  ghost predicate Consecutive(rs: seq<Record>, next: nat) {
    |rs| < next && forall i :: 0 <= i < |rs| ==> rs[i].id == next - |rs| + i
  }

  function InsertById(pool: seq<LogFile>, f: LogFile): seq<LogFile> {
    if pool == [] || f.id < pool[0].id then [f] + pool else [pool[0]] + InsertById(pool[1..], f)
  }

  ghost predicate ById(pool: seq<LogFile>) {
    forall i, j :: 0 <= i < j < |pool| ==> pool[i].id <= pool[j].id
  }

  lemma {:induction false} InsertedIn(pool: seq<LogFile>, f: LogFile)
    ensures multiset(InsertById(pool, f)) == multiset(pool) + multiset{f}
    ensures forall g :: g in InsertById(pool, f) ==> g == f || g in pool
  {
    if pool != [] && f.id >= pool[0].id {
      InsertedIn(pool[1..], f);
      assert pool == [pool[0]] + pool[1..];
    }
  }

  lemma {:induction false} InsertedOrder(pool: seq<LogFile>, f: LogFile)
    requires ById(pool)
    ensures ById(InsertById(pool, f))
  {
    if pool != [] && f.id >= pool[0].id {
      var rest := InsertById(pool[1..], f);
      InsertedOrder(pool[1..], f);
      InsertedIn(pool[1..], f);
      forall i | 0 <= i < |rest|
        ensures pool[0].id <= rest[i].id
      {
        assert rest[i] in rest;
      }
    }
  }

  lemma {:induction false} FlatJoin(a: seq<LogFile>, b: seq<LogFile>)
    ensures Flat(a + b) == Flat(a) + Flat(b)
  {
    hide Flat;
    if b == [] {
      assert a + b == a;
      assert Flat(b) == [] by { FlatNone(); }
    } else {
      var n := |b| - 1;
      FlatJoin(a, b[..n]);
      FlatLast(a + b);
      FlatLast(b);
      assert (a + b)[..|a| + n] == a + b[..n];
      Associate(Flat(a), Flat(b[..n]), b[n].records);
    }
  }

  lemma FlatNone()
    ensures Flat([]) == []
  {
  }

  lemma FlatLast(q: seq<LogFile>)
    requires q != []
    ensures Flat(q) == Flat(q[..|q| - 1]) + q[|q| - 1].records
  {
  }

  lemma Associate(a: seq<Record>, b: seq<Record>, c: seq<Record>)
    ensures a + b + c == a + (b + c)
  {
  }

  lemma IdsJoin(a: seq<LogFile>, b: seq<LogFile>)
    ensures IdsOf(a + b) == IdsOf(a) + IdsOf(b)
  {
    assert IdSeq(a + b) == IdSeq(a) + IdSeq(b);
  }

  lemma OneFile(f: LogFile)
    ensures Flat([f]) == f.records && IdsOf([f]) == multiset{f.id}
  {
    assert [f][..0] == [];
    assert IdSeq([f]) == [f.id];
  }

  lemma {:induction false} InsertedIds(pool: seq<LogFile>, f: LogFile)
    ensures IdsOf(InsertById(pool, f)) == IdsOf(pool) + multiset{f.id}
    ensures forall g :: g in InsertById(pool, f) <==> g == f || g in pool
    ensures |InsertById(pool, f)| == |pool| + 1
  {
    hide IdsOf;
    if pool == [] || f.id < pool[0].id {
      IdsJoin([f], pool);
      OneFile(f);
    } else {
      InsertedIds(pool[1..], f);
      IdsJoin([pool[0]], InsertById(pool[1..], f));
      IdsJoin([pool[0]], pool[1..]);
      assert pool == [pool[0]] + pool[1..];
    }
  }

  ghost predicate SameAt(r: Record, q: Record, c: Cell) {
    (q.Writes(c) <==> r.Writes(c)) && (r.Writes(c) ==> q.DataAt(c) == r.DataAt(c))
  }

  lemma EnactOneMore(t: Tables, r: Record, q: Record, c: Cell)
    requires q.Writes(c) && forall d :: d != c ==> SameAt(r, q, d)
    ensures Enact(t, q) == Enact(t, r)[c := q.DataAt(c)]
  {
    hide Record.Writes, Record.DataAt;
    var e, f := Enact(t, q), Enact(t, r)[c := q.DataAt(c)];
    forall d
      ensures (d in e <==> d in f) && (d in e ==> e[d] == f[d])
    {
      assert d == c || SameAt(r, q, d);
    }
  }

  lemma SlotPlanned(t: Tables, r: Record, s: SlotId, data: Data)
    requires Fresh(t, r)
    ensures var q := r.(slots := r.slots[s := data]); Fresh(t, q) && Enact(t, q) == Enact(t, r)[Slot(s) := data]
  {
    hide Enact;
    EnactOneMore(t, r, r.(slots := r.slots[s := data]), Slot(s));
  }

  /** Changing one entry of a page that shows the tables and the record's own changes keeps the page fresh. */
  lemma ItemPlanned(t: Tables, r: Record, p: PageId, sub: nat, page: seq<Data>)
    requires Fresh(t, r) && sub < CHUNK_ENTRIES == |page|
    requires forall i :: 0 <= i < CHUNK_ENTRIES && i != sub ==> page[i] == PageItem(t, r, p, i)
    ensures Fresh(t, Replanned(r, p, sub, page))
  {
  }

  lemma ItemEnacted(t: Tables, r: Record, p: PageId, sub: nat, page: seq<Data>)
    requires Fresh(t, r) && sub < CHUNK_ENTRIES == |page|
    requires forall i :: 0 <= i < CHUNK_ENTRIES && i != sub ==> page[i] == PageItem(t, r, p, i)
    ensures Enact(t, Replanned(r, p, sub, page)) == Enact(t, r)[Item(p, sub) := page[sub]]
  {
    hide Enact;
    var q := Replanned(r, p, sub, page);
    forall c | c != Item(p, sub)
      ensures SameAt(r, q, c)
    {
      if r.Writes(c) && c.Item? && c.page == p {
        assert page[c.item] == PageItem(t, r, p, c.item);
      }
    }
    EnactOneMore(t, r, q, Item(p, sub));
  }

  ghost function PageItem(t: Tables, r: Record, p: PageId, i: nat): Data {
    if p in r.pages && i < |r.pages[p].page| then r.pages[p].page[i] else At(t, Item(p, i))
  }

  ghost function Replanned(r: Record, p: PageId, sub: nat, page: seq<Data>): Record {
    r.(pages := r.pages[p := PageWrite((if p in r.pages then r.pages[p].mask else {}) + {sub}, page)])
  }

  ghost predicate AllEmpty(q: seq<LogFile>) {
    forall f :: f in q ==> f.records == []
  }

  ghost predicate AllFilled(q: seq<LogFile>) {
    forall f :: f in q ==> f.records != []
  }

  ghost predicate AllSynced(q: seq<LogFile>) {
    forall f :: f in q ==> f.synced
  }

  ghost function InOrder(a: seq<Record>, b: seq<Record>, c: seq<Record>, d: seq<Record>): seq<Record> {
    a + b + c + d
  }

  ghost function Total(a: multiset<nat>, b: multiset<nat>, c: multiset<nat>, d: multiset<nat>,
                       e: multiset<nat>): multiset<nat> {
    a + b + c + d + e
  }

  ghost predicate AllDistinct(ids: multiset<nat>, next: nat) {
    forall i :: ids[i] <= 1 && (i in ids ==> i < next)
  }

  /**
   * Log files by stage, the overlay of their unread records, the counters, and whether a flush is under way: the flush
   * lock is held from the moment a file is closed until it is synced.
   */
  datatype Stages = Stages(appending: Option<LogFile>, flushing: Option<LogFile>, reading: Option<LogFile>,
                           readPos: nat, isReading: bool, cleanup: seq<LogFile>, pool: seq<LogFile>,
                           nextRecordId: nat, nextLogId: nat, overlays: Overlays, syncing: bool) {
    /** The records of all log files, oldest first. */
    ghost function All(): seq<Record> {
      InOrder(Flat(cleanup), RecordsIn(reading), RecordsIn(flushing), RecordsIn(appending))
    }

    /** The records not read to their end yet. */
    ghost function Pending(): seq<Record> {
      if readPos > |RecordsIn(reading)| then []
      else InOrder([], RecordsIn(reading)[readPos..], RecordsIn(flushing), RecordsIn(appending))
    }

    /** The ids of the files that exist. */
    ghost function FileIds(): multiset<nat> {
      Total(IdsOf(cleanup), IdIn(reading), IdIn(flushing), IdIn(appending), IdsOf(pool))
    }

    /** Each stage holds what it should. */
    ghost predicate Staged(sync: bool) {
      && readPos <= |RecordsIn(reading)|
      && (isReading ==> reading.Some?)
      && (!isReading ==> readPos == |RecordsIn(reading)|)
      && (appending.Some? ==> appending.value.records != [] && appending.value.size > 0 && !appending.value.synced)
      && (flushing.Some? ==> flushing.value.records != [])
      && (reading.Some? ==> reading.value.records != [])
      && AllFilled(cleanup)
      && AllEmpty(pool) && ById(pool)
      && (sync ==> (reading.Some? ==> reading.value.synced) && AllSynced(cleanup))
      && (sync && flushing.Some? && !syncing ==> flushing.value.synced)
    }

    /**
     * Record ids run on through the stages, no two files share an id and a new id is not in use, and the overlay is
     * that of the records still to be read.
     */
    ghost predicate Valid(sync: bool) {
      && Staged(sync) && AllDistinct(FileIds(), nextLogId) && Consecutive(All(), nextRecordId)
      && overlays == OverlayOf(Pending())
    }
  }

  // Single steps.

  function Activated(s: Stages): Stages {
    if s.appending.Some? then s
    else if s.pool != [] then s.(appending := Some(LogFile(s.pool[0].id, [], 0, false)), pool := s.pool[1..])
    else s.(appending := Some(LogFile(s.nextLogId, [], 0, false)), nextLogId := s.nextLogId + 1)
  }

  function Ended(s: Stages, r: Record, bytes: nat): Stages {
    var a := Activated(s);
    var f := a.appending.value;
    a.(appending := Some(f.(records := f.records + [r], size := f.size + bytes)), overlays := Extend(s.overlays, r),
       nextRecordId := s.nextRecordId + 1)
  }

  lemma ActivatedIds(s: Stages)
    requires AllDistinct(s.FileIds(), s.nextLogId)
    ensures AllDistinct(Activated(s).FileIds(), Activated(s).nextLogId)
  {
    hide IdsOf, Total, AllDistinct;
    if s.appending.None? {
      if s.pool != [] {
        FirstId(s.pool);
        FromPool(IdsOf(s.cleanup), IdIn(s.reading), IdIn(s.flushing), s.pool[0].id, IdsOf(s.pool[1..]));
      } else {
        NewFile(IdsOf(s.cleanup), IdIn(s.reading), IdIn(s.flushing), IdsOf(s.pool), s.nextLogId);
      }
    }
  }

  lemma EndedFields(s: Stages, r: Record, bytes: nat)
    ensures var n := Ended(s, r, bytes);
      && RecordsIn(n.appending) == RecordsIn(s.appending) + [r]
      && IdIn(n.appending) == IdIn(Activated(s).appending)
      && n.pool == Activated(s).pool && n.nextLogId == Activated(s).nextLogId
      && n.reading == s.reading && n.readPos == s.readPos && n.isReading == s.isReading && n.flushing == s.flushing
      && n.cleanup == s.cleanup && n.syncing == s.syncing
      && n.nextRecordId == s.nextRecordId + 1 && n.overlays == Extend(s.overlays, r)
      && Activated(s).reading == s.reading && Activated(s).flushing == s.flushing && Activated(s).cleanup == s.cleanup
  {
    hide Extend;
  }

  lemma EndedStaged(s: Stages, r: Record, bytes: nat, sync: bool)
    requires s.Staged(sync) && bytes > 0
    ensures Ended(s, r, bytes).Staged(sync)
  {
    hide Extend, AllSynced;
  }

  /** A finished record becomes the newest record of the log and the last one to be read. */
  lemma EndedValid(s: Stages, r: Record, bytes: nat, sync: bool)
    requires s.Valid(sync) && r.id == s.nextRecordId && bytes > 0
    ensures var n := Ended(s, r, bytes); n.Valid(sync) && n.All() == s.All() + [r] && n.Pending() == s.Pending() + [r]
  {
    hide OverlayOf, Extend, IdsOf, IdIn, RecordsIn, AllDistinct, Flat, Consecutive, InOrder, Total, AllSynced, AllEmpty;
    hide Ended, Activated;
    EndedFields(s, r, bytes);
    EndedStaged(s, r, bytes, sync);
    ActivatedIds(s);
    Appended(Flat(s.cleanup), RecordsIn(s.reading), RecordsIn(s.flushing), RecordsIn(s.appending), r);
    Appended([], RecordsIn(s.reading)[s.readPos..], RecordsIn(s.flushing), RecordsIn(s.appending), r);
    ConsecutiveSnoc(s.All(), r);
    OverlaySnoc(s.Pending(), r);
  }

  lemma Appended(a: seq<Record>, b: seq<Record>, c: seq<Record>, d: seq<Record>, r: Record)
    ensures InOrder(a, b, c, d + [r]) == InOrder(a, b, c, d) + [r]
  {
  }

  lemma FromPool(a: multiset<nat>, b: multiset<nat>, c: multiset<nat>, id: nat, e: multiset<nat>)
    ensures Total(a, b, c, multiset{id}, e) == Total(a, b, c, multiset{}, multiset{id} + e)
  {
  }

  lemma NewFile(a: multiset<nat>, b: multiset<nat>, c: multiset<nat>, e: multiset<nat>, id: nat)
    requires AllDistinct(Total(a, b, c, multiset{}, e), id)
    ensures AllDistinct(Total(a, b, c, multiset{id}, e), id + 1)
  {
    assert Total(a, b, c, multiset{id}, e) == Total(a, b, c, multiset{}, e) + multiset{id};
  }

  lemma ConsecutiveSnoc(rs: seq<Record>, r: Record)
    requires Consecutive(rs, r.id)
    ensures Consecutive(rs + [r], r.id + 1)
  {
  }

  lemma OverlaySnoc(rs: seq<Record>, r: Record)
    ensures OverlayOf(rs + [r]) == Extend(OverlayOf(rs), r)
  {
    assert (rs + [r])[..|rs|] == rs;
  }

  lemma FirstId(pool: seq<LogFile>)
    requires pool != []
    ensures IdsOf(pool) == multiset{pool[0].id} + IdsOf(pool[1..])
  {
    assert pool == [pool[0]] + pool[1..];
    IdsJoin([pool[0]], pool[1..]);
    OneFile(pool[0]);
  }

  /** The next unread record, if a file is being read; at its end the file stops being read. */
  function AfterReadNext(s: Stages): Stages {
    if s.isReading && s.reading.Some? && s.readPos >= |s.reading.value.records| then s.(isReading := false) else s
  }

  function AfterEndRead(s: Stages, r: Record): Stages {
    s.(readPos := s.readPos + 1, overlays := Clear(s.overlays, r))
  }

  function NextRecord(s: Stages): Option<Record> {
    if s.isReading && s.reading.Some? && s.readPos < |s.reading.value.records|
    then Some(s.reading.value.records[s.readPos])
    else None
  }

  function AfterEnact(s: Stages): Stages {
    match NextRecord(s)
    case Some(r) => AfterEndRead(s, r)
    case None => AfterReadNext(s)
  }

  /** A flushed file becomes the one to read, and the file read before it is handed to cleanup. */
  function Advanced(s: Stages): Stages {
    if s.flushing.None? then s
    else
      s.(cleanup := if s.reading.Some? then s.cleanup + [s.reading.value] else s.cleanup,
         reading := s.flushing, readPos := 0, isReading := true, flushing := None)
  }

  /** A file large enough stops being appended to and is to be flushed. */
  function Closed(s: Stages, minSize: nat): Stages {
    if s.appending.Some? && s.appending.value.size > 0 && s.appending.value.size > minSize then
      s.(flushing := s.appending, appending := None)
    else s
  }

  /** The first half of a flush, at the end of which the lock is still held. */
  function Rotated(s: Stages, minSize: nat): Stages {
    Closed(Advanced(s).(syncing := true), minSize)
  }

  /** The second half. */
  function Synced(s: Stages, sync: bool): Stages {
    if sync && s.flushing.Some? then s.(flushing := Some(s.flushing.value.(synced := true)), syncing := false)
    else s.(syncing := false)
  }

  /** Truncated files go to the pool, in order of their ids. */
  function Pooled(pool: seq<LogFile>, files: seq<LogFile>): seq<LogFile> {
    if files == [] then pool
    else InsertById(Pooled(pool, files[..|files| - 1]), files[|files| - 1].(records := [], size := 0))
  }

  function Trimmed(pool: seq<LogFile>): seq<LogFile> {
    if |pool| > MAX_LOG_POOL_SIZE then pool[..MAX_LOG_POOL_SIZE] else pool
  }

  function Cleaned(s: Stages, count: nat): Stages
    requires count <= |s.cleanup|
  {
    s.(cleanup := s.cleanup[count..], pool := Trimmed(Pooled(s.pool, s.cleanup[..count])))
  }

  lemma FirstPending(s: Stages)
    requires s.readPos < |RecordsIn(s.reading)|
    ensures s.Pending() == [s.reading.value.records[s.readPos]] + s.(readPos := s.readPos + 1).Pending()
  {
    hide InOrder;
    HeadOff(s.reading.value.records, s.readPos, RecordsIn(s.flushing), RecordsIn(s.appending));
  }

  lemma HeadOff(r: seq<Record>, k: nat, f: seq<Record>, a: seq<Record>)
    requires k < |r|
    ensures InOrder([], r[k..], f, a) == [r[k]] + InOrder([], r[k + 1..], f, a)
  {
    assert r[k..] == [r[k]] + r[k + 1..];
  }

  lemma DistinctHead(r: Record, rest: seq<Record>, next: nat)
    requires Consecutive([r] + rest, next)
    ensures forall i :: 0 <= i < |rest| ==> rest[i].id != r.id
  {
    forall i | 0 <= i < |rest|
      ensures rest[i].id != r.id
    {
      assert ([r] + rest)[i + 1] == rest[i] && ([r] + rest)[0] == r;
    }
  }

  lemma {:induction false} PendingIds(s: Stages)
    requires s.readPos <= |RecordsIn(s.reading)| && Consecutive(s.All(), s.nextRecordId)
    ensures Consecutive(s.Pending(), s.nextRecordId) && |s.Pending()| <= |s.All()|
    ensures s.Pending() == s.All()[|s.All()| - |s.Pending()|..]
  {
    hide Flat;
    var c, r, f, a := Flat(s.cleanup), RecordsIn(s.reading), RecordsIn(s.flushing), RecordsIn(s.appending);
    Regroup(c, r, f, a, s.readPos);
    Suffix(s.All(), s.Pending(), s.nextRecordId);
  }

  lemma Regroup(c: seq<Record>, r: seq<Record>, f: seq<Record>, a: seq<Record>, k: nat)
    requires k <= |r|
    ensures InOrder(c, r, f, a) == (c + r[..k]) + InOrder([], r[k..], f, a)
  {
    assert r == r[..k] + r[k..];
  }

  lemma Suffix(all: seq<Record>, rest: seq<Record>, next: nat)
    requires Consecutive(all, next) && |rest| <= |all| && rest == all[|all| - |rest|..]
    ensures Consecutive(rest, next)
  {
  }

  /** A record read to its end is the oldest one pending, and leaves the rest pending, in the log and in the overlay. */
  lemma EndReadValid(s: Stages, sync: bool)
    requires s.Valid(sync) && s.isReading && s.readPos < |RecordsIn(s.reading)|
    ensures var r := s.reading.value.records[s.readPos];
      var n := AfterEndRead(s, r);
      n.Valid(sync) && n.All() == s.All() && s.Pending() == [r] + n.Pending()
  {
    hide IdsOf, AllDistinct, Flat, InOrder, Total, AllSynced, AllEmpty, OverlayOf, Clear, Consecutive;
    var r := s.reading.value.records[s.readPos];
    var n := AfterEndRead(s, r);
    FirstPending(s);
    assert n.Pending() == s.(readPos := s.readPos + 1).Pending();
    PendingIds(s);
    DistinctHead(r, n.Pending(), s.nextRecordId);
    ClearFirst(r, n.Pending());
  }

  lemma AdvancedRecords(s: Stages)
    requires s.readPos == |RecordsIn(s.reading)|
    ensures Advanced(s).All() == s.All() && Advanced(s).Pending() == s.Pending()
  {
    hide InOrder, Flat;
    if s.flushing.Some? {
      if s.reading.Some? {
        FlatJoin(s.cleanup, [s.reading.value]);
        OneFile(s.reading.value);
      }
      var c, r, f, a := Flat(s.cleanup), RecordsIn(s.reading), RecordsIn(s.flushing), RecordsIn(s.appending);
      assert f[0..] == f && r[s.readPos..] == [];
      assert c + r == Flat(Advanced(s).cleanup);
      MoveUp(c, r, f, a);
    }
  }

  lemma MoveUp(c: seq<Record>, r: seq<Record>, f: seq<Record>, a: seq<Record>)
    ensures InOrder(c + r, f, [], a) == InOrder(c, r, f, a) && InOrder([], f, [], a) == InOrder([], [], f, a)
  {
  }

  lemma AdvancedIds(s: Stages)
    ensures Advanced(s).FileIds() == s.FileIds()
  {
    hide IdsOf;
    if s.flushing.Some? && s.reading.Some? {
      IdsJoin(s.cleanup, [s.reading.value]);
      OneFile(s.reading.value);
    }
  }

  /**
   * Nothing is lost or reordered when a flushed file starts being read; the file before it has been read to its end.
   */
  lemma AdvancedValid(s: Stages, sync: bool)
    requires s.Valid(sync) && !s.syncing && (s.flushing.Some? ==> !s.isReading)
    ensures Advanced(s).Valid(sync) && Advanced(s).All() == s.All() && Advanced(s).Pending() == s.Pending()
  {
    hide IdsOf, IdIn, AllDistinct, Flat, InOrder, Total, AllEmpty, OverlayOf, Consecutive;
    if s.flushing.Some? {
      AdvancedRecords(s);
      AdvancedIds(s);
    }
  }

  lemma ClosedValid(s: Stages, minSize: nat, sync: bool)
    requires s.Valid(sync) && s.flushing.None? && s.syncing
    ensures Closed(s, minSize).Valid(sync)
    ensures Closed(s, minSize).All() == s.All() && Closed(s, minSize).Pending() == s.Pending()
  {
    hide IdsOf, AllDistinct, Flat, AllEmpty, AllSynced, OverlayOf, Consecutive;
    var n := Closed(s, minSize);
    assert n.FileIds() == s.FileIds();
    assert n.All() == s.All() && n.Pending() == s.Pending();
  }

  lemma LockedValid(s: Stages, sync: bool)
    requires s.Valid(sync)
    ensures var n := s.(syncing := true); n.Valid(sync) && n.All() == s.All() && n.Pending() == s.Pending()
  {
    hide IdsOf, AllDistinct, Flat, AllEmpty, AllSynced, OverlayOf, Consecutive, InOrder, Total;
  }

  /** A flush loses and reorders nothing, and what it starts reading has been synced before. */
  lemma RotatedValid(s: Stages, minSize: nat, sync: bool)
    requires s.Valid(sync) && !s.syncing && (s.flushing.Some? ==> !s.isReading)
    ensures Rotated(s, minSize).Valid(sync) && Rotated(s, minSize).syncing
    ensures Rotated(s, minSize).All() == s.All() && Rotated(s, minSize).Pending() == s.Pending()
  {
    hide Stages.Valid, Stages.All, Stages.Pending;
    AdvancedValid(s, sync);
    LockedValid(Advanced(s), sync);
    ClosedValid(Advanced(s).(syncing := true), minSize, sync);
  }

  lemma SyncedValid(s: Stages, sync: bool)
    requires s.Valid(sync)
    ensures Synced(s, sync).Valid(sync) && Synced(s, sync).All() == s.All() && Synced(s, sync).Pending() == s.Pending()
  {
    hide IdsOf, AllDistinct, Flat, AllEmpty, AllSynced, OverlayOf, Consecutive, InOrder, Total;
  }

  lemma {:induction false} PooledIds(pool: seq<LogFile>, files: seq<LogFile>)
    requires AllEmpty(pool)
    ensures IdsOf(Pooled(pool, files)) == IdsOf(files) + IdsOf(pool) && AllEmpty(Pooled(pool, files))
  {
    hide IdsOf;
    if files == [] {
      assert IdsOf(files) == multiset{} by { NoIds(); }
    } else {
      var n := |files| - 1;
      PooledIds(pool, files[..n]);
      InsertedIds(Pooled(pool, files[..n]), files[n].(records := [], size := 0));
      IdsJoin(files[..n], [files[n]]);
      OneFile(files[n]);
      assert files[..n] + [files[n]] == files;
    }
  }

  /** The files as they are once truncated. */
  ghost function Emptied(files: seq<LogFile>): seq<LogFile> {
    seq(|files|, i requires 0 <= i < |files| => files[i].(records := [], size := 0))
  }

  lemma {:induction false} PooledOrder(pool: seq<LogFile>, files: seq<LogFile>)
    requires ById(pool)
    ensures ById(Pooled(pool, files)) && multiset(Pooled(pool, files)) == multiset(pool) + multiset(Emptied(files))
  {
    hide InsertById;
    if files != [] {
      var n := |files| - 1;
      PooledOrder(pool, files[..n]);
      InsertedOrder(Pooled(pool, files[..n]), files[n].(records := [], size := 0));
      InsertedIn(Pooled(pool, files[..n]), files[n].(records := [], size := 0));
      assert Emptied(files) == Emptied(files[..n]) + [files[n].(records := [], size := 0)];
    }
  }

  /** What is kept of the files, and what is given up: no more than sixteen are kept, and no id given up is lower. */
  ghost predicate KeepsLowest(before: seq<LogFile>, pool: seq<LogFile>, gone: seq<LogFile>) {
    && multiset(pool) + multiset(gone) == multiset(before)
    && |pool| == (if |before| > 16 then 16 else |before|)
    && forall f, g :: f in pool && g in gone ==> f.id <= g.id
  }

  /**
   * The pool after cleanup: the truncated files and those it had, in order of their ids, up to sixteen of the lowest.
   */
  lemma CleanedPool(s: Stages, count: nat) returns (gone: seq<LogFile>)
    requires ById(s.pool) && count <= |s.cleanup|
    ensures ById(Cleaned(s, count).pool)
    ensures KeepsLowest(s.pool + Emptied(s.cleanup[..count]), Cleaned(s, count).pool, gone)
  {
    hide Pooled;
    PooledOrder(s.pool, s.cleanup[..count]);
    var all := Pooled(s.pool, s.cleanup[..count]);
    var n := if |all| > MAX_LOG_POOL_SIZE then MAX_LOG_POOL_SIZE else |all|;
    gone := all[n..];
    assert all == all[..n] + gone;
    SameSize(s.pool + Emptied(s.cleanup[..count]), all);
  }

  lemma SameSize(a: seq<LogFile>, b: seq<LogFile>)
    requires multiset(a) == multiset(b)
    ensures |a| == |b|
  {
    assert |a| == |multiset(a)| && |b| == |multiset(b)|;
  }

  lemma NoIds()
    ensures IdsOf([]) == multiset{}
  {
  }

  lemma TrimmedIds(pool: seq<LogFile>)
    ensures IdsOf(Trimmed(pool)) <= IdsOf(pool) && (AllEmpty(pool) ==> AllEmpty(Trimmed(pool)))
  {
    if |pool| > MAX_LOG_POOL_SIZE {
      IdsJoin(pool[..MAX_LOG_POOL_SIZE], pool[MAX_LOG_POOL_SIZE..]);
      assert pool == pool[..MAX_LOG_POOL_SIZE] + pool[MAX_LOG_POOL_SIZE..];
    }
  }

  lemma Fewer(a: multiset<nat>, b: multiset<nat>, c: multiset<nat>, d: multiset<nat>, e: multiset<nat>,
              cut: multiset<nat>,
              pool: multiset<nat>, next: nat)
    requires AllDistinct(Total(cut + a, b, c, d, e), next) && pool <= cut + e
    ensures AllDistinct(Total(a, b, c, d, pool), next)
  {
    assert Total(a, b, c, d, pool) <= Total(cut + a, b, c, d, e);
  }

  lemma CleanedStaged(s: Stages, count: nat, sync: bool)
    requires s.Staged(sync) && count <= |s.cleanup|
    ensures Cleaned(s, count).Staged(sync)
  {
    hide Pooled, Trimmed, AllEmpty, IdsOf, ById, KeepsLowest;
    PooledIds(s.pool, s.cleanup[..count]);
    TrimmedIds(Pooled(s.pool, s.cleanup[..count]));
    var _ := CleanedPool(s, count);
  }

  lemma CleanedIds(s: Stages, count: nat)
    requires AllEmpty(s.pool) && AllDistinct(s.FileIds(), s.nextLogId) && count <= |s.cleanup|
    ensures AllDistinct(Cleaned(s, count).FileIds(), s.nextLogId)
  {
    hide IdsOf, IdIn, AllDistinct, Total, AllEmpty, Pooled, Trimmed;
    var n, cut, left := Cleaned(s, count), s.cleanup[..count], s.cleanup[count..];
    assert s.cleanup == cut + left;
    IdsJoin(cut, left);
    PooledIds(s.pool, cut);
    TrimmedIds(Pooled(s.pool, cut));
    Fewer(IdsOf(left), IdIn(s.reading), IdIn(s.flushing), IdIn(s.appending), IdsOf(s.pool), IdsOf(cut), IdsOf(n.pool),
          s.nextLogId);
  }

  /** Cleanup takes whole files off the front of the log; their names are reused or given up, never shared. */
  lemma CleanedValid(s: Stages, count: nat, sync: bool)
    requires s.Valid(sync) && count <= |s.cleanup|
    ensures Cleaned(s, count).Valid(sync) && Cleaned(s, count).Pending() == s.Pending()
    ensures s.All() == Flat(s.cleanup[..count]) + Cleaned(s, count).All()
  {
    hide AllDistinct, Flat, OverlayOf, AllEmpty, AllSynced, AllFilled, Pooled, Trimmed, Consecutive, InOrder;
    hide Stages.FileIds, RecordsIn;
    CleanedStaged(s, count, sync);
    CleanedIds(s, count);
    var cut, left := s.cleanup[..count], s.cleanup[count..];
    assert s.cleanup == cut + left;
    FlatJoin(cut, left);
    CutRecords(Flat(cut), Flat(left), RecordsIn(s.reading), RecordsIn(s.flushing), RecordsIn(s.appending),
               s.nextRecordId);
  }

  lemma CutRecords(cut: seq<Record>, a: seq<Record>, b: seq<Record>, c: seq<Record>, d: seq<Record>, next: nat)
    requires Consecutive(InOrder(cut + a, b, c, d), next)
    ensures InOrder(cut + a, b, c, d) == cut + InOrder(a, b, c, d) && Consecutive(InOrder(a, b, c, d), next)
  {
    var all, rest := InOrder(cut + a, b, c, d), InOrder(a, b, c, d);
    assert all == cut + rest;
    Suffix(all, rest, next);
  }

  /** The pooled files and the file read last are removed. */
  function Killed(s: Stages): Stages {
    s.(pool := [], reading := None, readPos := 0)
  }

  lemma KilledValid(s: Stages, sync: bool)
    requires s.Valid(sync) && !s.isReading && s.cleanup == []
    ensures Killed(s).Valid(sync) && Killed(s).Pending() == s.Pending() == Killed(s).All()
    ensures s.All() == RecordsIn(s.reading) + Killed(s).All()
  {
    hide IdsOf, IdIn, AllDistinct, OverlayOf, Consecutive, Total, InOrder, AllSynced, AllFilled;
    KilledRecords(s);
    PendingIds(s);
    NoIds();
    FewerIds(IdsOf(s.cleanup), IdIn(s.reading), IdIn(s.flushing), IdIn(s.appending), IdsOf(s.pool), s.nextLogId);
    assert IdIn(None) == multiset{} by { NoFileId(); }
  }

  lemma KilledRecords(s: Stages)
    requires s.readPos == |RecordsIn(s.reading)| && s.cleanup == []
    ensures Killed(s).Pending() == s.Pending() == Killed(s).All()
    ensures s.All() == RecordsIn(s.reading) + Killed(s).All()
  {
    hide InOrder;
    assert RecordsIn(s.reading)[s.readPos..] == [];
    NoFirst(RecordsIn(s.reading), RecordsIn(s.flushing), RecordsIn(s.appending));
  }

  lemma NoFileId()
    ensures IdIn(None) == multiset{}
  {
  }

  lemma NoFirst(r: seq<Record>, f: seq<Record>, a: seq<Record>)
    ensures InOrder([], r, f, a) == r + InOrder([], [], f, a)
  {
  }

  lemma FewerIds(a: multiset<nat>, b: multiset<nat>, c: multiset<nat>, d: multiset<nat>, e: multiset<nat>, next: nat)
    requires AllDistinct(Total(a, b, c, d, e), next)
    ensures AllDistinct(Total(a, multiset{}, c, d, multiset{}), next)
  {
    assert Total(a, multiset{}, c, d, multiset{}) <= Total(a, b, c, d, e);
  }
}
