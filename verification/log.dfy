/** The write-ahead log. */
module Logs {
  import opened Keys
  import opened Records
  import opened LogStages

  ghost function Sum(sizes: seq<nat>): nat {
    if sizes == [] then 0 else Sum(sizes[..|sizes| - 1]) + sizes[|sizes| - 1]
  }

  class Log {
    /** Whether files are synced before they are read. */
    const sync: bool
    var appending: Option<LogFile>
    var flushing: Option<LogFile>
    var reading: Option<LogFile>
    var readPos: nat
    var isReading: bool
    var cleanupQueue: seq<LogFile>
    var pool: seq<LogFile>
    var nextRecordId: nat
    var nextLogId: nat
    var overlays: Overlays
    /** Whether the flush lock is held. */
    var syncing: bool
    /** The sizes of the records appended since the current file was opened. */
    ghost var written: seq<nat>

    ghost function State(): Stages
      reads this
    {
      Stages(appending, flushing, reading, readPos, isReading, cleanupQueue, pool, nextRecordId, nextLogId, overlays,
             syncing)
    }

    ghost predicate Valid()
      reads this
    {
      State().Valid(sync) && Sum(written) == if appending.Some? then appending.value.size else 0
    }

    ghost function All(): seq<Record>
      reads this
    {
      State().All()
    }

    ghost function Pending(): seq<Record>
      reads this
    {
      State().Pending()
    }

    /** A log without files. Record ids go on from `next`: 1, or what follows the last record replayed. */
    constructor (sync: bool, next: nat)
      requires next > 0
      ensures Valid() && this.sync == sync && All() == [] && Pending() == [] && nextRecordId == next
      ensures appending.None? && flushing.None? && reading.None? && cleanupQueue == [] && !isReading && !syncing
      ensures pool == [] && nextLogId == 0
    {
      this.sync := sync;
      appending, flushing, reading, readPos, isReading := None, None, None, 0, false;
      cleanupQueue, pool, nextRecordId, nextLogId, overlays, syncing := [], [], next, 0, NoOverlays, false;
      written := [];
    }

    /** Appends a planned record to the current file, opening one if need be, and shows it in the overlay. */
    method EndRecord(r: Record, bytes: nat)
      requires Valid() && r.id == nextRecordId && bytes > 0
      modifies this
      ensures Valid() && State() == Ended(old(State()), r, bytes)
      ensures All() == old(All()) + [r] && Pending() == old(Pending()) + [r]
      ensures appending.Some? && appending.value.records == old(RecordsIn(appending)) + [r] && !appending.value.synced
      ensures written == (if old(appending).Some? then old(written) else []) + [bytes]
      ensures TakesFile(old(State()), appending.value.id, pool, nextLogId)
      ensures nextRecordId == old(nextRecordId) + 1 && flushing == old(flushing) && syncing == old(syncing)
      ensures reading == old(reading) && readPos == old(readPos) && isReading == old(isReading)
      ensures cleanupQueue == old(cleanupQueue)
    {
      hide Extend, Stages.Valid, Stages.All, Stages.Pending, Sum, TakesFile;
      EndedValid(State(), r, bytes, sync);
      FileSized(State(), sync);
      Activate();
      var f := appending.value;
      appending := Some(f.(records := f.records + [r], size := f.size + bytes));
      overlays := Extend(overlays, r);
      nextRecordId := nextRecordId + 1;
      SumMore(written, bytes);
      written := written + [bytes];
    }

    /** Opens a file to append to if there is none: the first of the pool, else a new one. */
    method Activate()
      requires Sum(written) == if appending.Some? then appending.value.size else 0
      modifies this`appending, this`pool, this`nextLogId, this`written
      ensures State() == Activated(old(State()))
      ensures appending.Some? && TakesFile(old(State()), appending.value.id, pool, nextLogId)
      ensures old(appending).Some? ==> appending == old(appending)
      ensures old(appending).None? ==> appending.value.records == [] && !appending.value.synced
      ensures written == (if old(appending).Some? then old(written) else []) && Sum(written) == appending.value.size
    {
      if appending.None? {
        if pool != [] {
          appending := Some(LogFile(pool[0].id, [], 0, false));
          pool := pool[1..];
        } else {
          appending := Some(LogFile(nextLogId, [], 0, false));
          nextLogId := nextLogId + 1;
        }
        written := [];
      }
    }

    /** The record to enact next, if any; the end of the file being read is noticed here. */
    method ReadNext() returns (r: Option<Record>)
      requires Valid()
      modifies this`isReading
      ensures Valid() && State() == AfterReadNext(old(State())) && All() == old(All()) && Pending() == old(Pending())
      ensures r.Some? <==> isReading
      ensures isReading <==> old(isReading) && readPos < |RecordsIn(reading)|
      ensures r.Some? ==> readPos < |RecordsIn(reading)| && r.value == reading.value.records[readPos]
      ensures r.Some? ==> Pending() != [] && Pending()[0] == r.value
    {
      hide Flat, IdsOf, AllDistinct, Consecutive, OverlayOf, AllEmpty, AllSynced, InOrder, Total;
      if !isReading || reading.None? {
        return None;
      }
      if readPos == |reading.value.records| {
        isReading := false;
        return None;
      }
      FirstPending(State());
      r := Some(reading.value.records[readPos]);
    }

    /** The record just enacted leaves the overlay, and is not read again. */
    method EndRead()
      requires Valid() && isReading && readPos < |RecordsIn(reading)|
      modifies this`readPos, this`overlays
      ensures Valid() && State() == AfterEndRead(old(State()), old(reading.value.records[readPos]))
      ensures All() == old(All()) && old(Pending()) == [old(reading.value.records[readPos])] + Pending()
      ensures readPos == old(readPos) + 1
    {
      hide Clear, Stages.Valid, Stages.All, Stages.Pending;
      EndReadValid(State(), sync);
      overlays := Clear(overlays, reading.value.records[readPos]);
      readPos := readPos + 1;
    }

    /**
     * First half of a flush, with the flush lock taken: the flushed file, if any, starts being read, and the current
     * file stops being appended to. A flush with a flushed file at hand waits for the reader.
     */
    method Rotate(minSize: nat) returns (readNext: bool, cleanup: bool)
      requires Valid() && !syncing && (flushing.Some? ==> !isReading)
      modifies this
      ensures Valid() && State() == Rotated(old(State()), minSize)
      ensures All() == old(All()) && Pending() == old(Pending()) && syncing && nextRecordId == old(nextRecordId)
      ensures readNext == old(flushing).Some? && cleanup == old(flushing.Some? && reading.Some?)
      ensures if old(appending.Some? && appending.value.size > minSize)
        then appending.None? && flushing == old(appending) && written == []
        else appending == old(appending) && flushing.None? && written == old(written)
      ensures if old(flushing).Some?
        then reading == old(flushing) && readPos == 0 && isReading &&
             cleanupQueue == old(cleanupQueue + if reading.Some? then [reading.value] else [])
        else reading == old(reading) && readPos == old(readPos) && isReading == old(isReading) &&
             cleanupQueue == old(cleanupQueue)
      ensures pool == old(pool) && nextLogId == old(nextLogId)
    {
      hide Stages.Valid, Stages.All, Stages.Pending;
      RotatedValid(State(), minSize, sync);
      FileSized(State(), sync);
      readNext, cleanup := Advance();
      syncing := true;
      Close(minSize);
      if appending.None? {
        written := if old(appending).None? then written else [];
      }
      EmptySum(written);
    }

    method Advance() returns (readNext: bool, cleanup: bool)
      modifies this`cleanupQueue, this`reading, this`readPos, this`isReading, this`flushing
      ensures State() == Advanced(old(State()))
      ensures readNext == old(flushing).Some? && cleanup == old(flushing.Some? && reading.Some?)
    {
      readNext, cleanup := false, false;
      if flushing.Some? {
        if reading.Some? {
          cleanupQueue := cleanupQueue + [reading.value];
          isReading := false;
          cleanup := true;
        }
        reading, readPos, isReading, flushing := flushing, 0, true, None;
        readNext := true;
      }
    }

    method Close(minSize: nat)
      modifies this`flushing, this`appending
      ensures State() == Closed(old(State()), minSize)
    {
      if appending.Some? && appending.value.size > 0 && appending.value.size > minSize {
        flushing, appending := appending, None;
      }
    }

    /** Second half of a flush: the file to flush is synced, and the lock released. */
    method Sync()
      requires Valid() && syncing
      modifies this`flushing, this`syncing
      ensures Valid() && State() == Synced(old(State()), sync)
      ensures All() == old(All()) && Pending() == old(Pending()) && !syncing
      ensures flushing ==
        if sync && old(flushing).Some? then Some(old(flushing).value.(synced := true)) else old(flushing)
    {
      hide Stages.Valid, Stages.All, Stages.Pending;
      SyncedValid(State(), sync);
      if sync && flushing.Some? {
        flushing := Some(flushing.value.(synced := true));
      }
      syncing := false;
    }

    method FlushOne(minSize: nat) returns (flushNext: bool, readNext: bool, cleanup: bool)
      requires Valid() && !syncing && (flushing.Some? ==> !isReading)
      modifies this
      ensures Valid() && !syncing && (sync && flushing.Some? ==> flushing.value.synced)
      ensures All() == old(All()) && Pending() == old(Pending()) && nextRecordId == old(nextRecordId)
      ensures State() == Synced(Rotated(old(State()), minSize), sync)
      ensures flushNext == flushing.Some? && readNext == old(flushing).Some?
      ensures cleanup == old(flushing.Some? && reading.Some?)
      ensures if old(appending.Some? && appending.value.size > minSize)
        then appending.None? && flushing == Some(old(appending.value).(synced := sync))
        else appending == old(appending) && flushing.None?
      ensures if old(flushing).Some?
        then reading == old(flushing) && readPos == 0 && isReading
        else reading == old(reading) && readPos == old(readPos) && isReading == old(isReading)
    {
      hide Stages.Valid, Stages.All, Stages.Pending;
      FileSized(State(), sync);
      readNext, cleanup := Rotate(minSize);
      Sync();
      flushNext := flushing.Some?;
    }

    /** Truncates the oldest `count` files that have been read, and keeps up to sixteen of them for reuse. */
    method CleanLogs(count: nat) returns (more: bool)
      requires Valid() && count <= |cleanupQueue|
      modifies this`cleanupQueue, this`pool
      ensures Valid() && State() == Cleaned(old(State()), count) && more == (cleanupQueue != [])
      ensures Pending() == old(Pending()) && old(All()) == Flat(old(cleanupQueue)[..count]) + All()
      ensures cleanupQueue == old(cleanupQueue)[count..] && ById(pool)
      ensures exists gone :: KeepsLowest(old(pool + Emptied(cleanupQueue[..count])), pool, gone)
    {
      hide Stages.Valid, Stages.All, Stages.Pending, InsertById, Flat, KeepsLowest;
      CleanedValid(State(), count, sync);
      assert ById(pool) by { PoolIsEmpty(State(), sync); }
      ghost var gone := CleanedPool(State(), count);
      var cleaned := cleanupQueue[..count];
      cleanupQueue := cleanupQueue[count..];
      var i := 0;
      while i < |cleaned|
        invariant i <= |cleaned| && cleanupQueue == old(cleanupQueue[count..])
        invariant pool == Pooled(old(pool), cleaned[..i])
      {
        assert cleaned[..i + 1][..i] == cleaned[..i];
        pool := InsertById(pool, cleaned[i].(records := [], size := 0));
        i := i + 1;
      }
      assert cleaned[..i] == cleaned;
      if |pool| > MAX_LOG_POOL_SIZE {
        pool := pool[..MAX_LOG_POOL_SIZE];
      }
      more := cleanupQueue != [];
    }

    /** Removes the pooled files and the file read last, once every file before it is gone. */
    method KillLogs()
      requires Valid() && !isReading && cleanupQueue == []
      modifies this`pool, this`reading, this`readPos
      ensures Valid() && State() == Killed(old(State()))
      ensures Pending() == old(Pending()) && All() == Pending()
      ensures pool == [] && reading.None?
    {
      hide Stages.Valid, Stages.All, Stages.Pending;
      KilledValid(State(), sync);
      pool := [];
      reading, readPos := None, 0;
    }
  }

  /** Which file is appended to: the current one, else that of the lowest id in the pool, else a new one. */
  ghost predicate TakesFile(s: Stages, id: nat, pool: seq<LogFile>, nextLogId: nat) {
    if s.appending.Some? then id == s.appending.value.id && pool == s.pool && nextLogId == s.nextLogId
    else if s.pool != [] then id == s.pool[0].id && pool == s.pool[1..] && nextLogId == s.nextLogId
    else id == s.nextLogId && pool == [] && nextLogId == s.nextLogId + 1
  }

  lemma SumMore(sizes: seq<nat>, n: nat)
    ensures Sum(sizes + [n]) == Sum(sizes) + n
  {
    assert (sizes + [n])[..|sizes|] == sizes;
  }

  lemma PoolIsEmpty(s: Stages, sync: bool)
    requires s.Valid(sync)
    ensures AllEmpty(s.pool) && ById(s.pool)
  {
    hide Stages.All, Stages.Pending, AllDistinct, Consecutive, OverlayOf;
  }

  /** A file that is appended to has bytes in it, and is not synced. */
  lemma FileSized(s: Stages, sync: bool)
    requires s.Valid(sync)
    ensures s.appending.Some? ==> s.appending.value.size > 0 && !s.appending.value.synced
  {
    hide Stages.All, Stages.Pending, AllDistinct, Consecutive, OverlayOf;
  }

  lemma EmptySum(sizes: seq<nat>)
    ensures sizes == [] ==> Sum(sizes) == 0
  {
  }
}
