/** The commit pipeline: commit queue and overlay, log, tables. */
module Databases {
  import opened Keys
  import opened Entries
  import opened Records
  import opened LogStages
  import opened Logs
  import C = Commits

  const KEEP_LOGS: nat := 16

  /** What the log worker is at: a commit taken off the queue, then logged, then cleaned off the overlay. */
  datatype Worker = Idle | Planning(commit: C.Commit) | Logged(commit: C.Commit)

  ghost function InHand(w: Worker): seq<C.Commit> {
    match w
    case Idle => []
    case Planning(c) => [c]
    case Logged(c) => [c]
  }

  /** Every commit still shown by the overlay. */
  ghost function Shown(w: Worker, q: seq<C.Commit>): seq<C.Commit> {
    InHand(w) + q
  }

  /** Every commit not in the log yet. */
  ghost function Unlogged(w: Worker, q: seq<C.Commit>): seq<C.Commit> {
    (if w.Planning? then [w.commit] else []) + q
  }

  /** Commit ids grow along the queue, up to `last`. */
  ghost predicate Ascending(q: seq<C.Commit>, last: nat) {
    (forall i, j :: 0 <= i < j < |q| ==> q[i].id < q[j].id) && forall i :: 0 <= i < |q| ==> q[i].id <= last
  }

  /** `rest` is the newest part of the history. */
  ghost predicate Ends(history: seq<Record>, rest: seq<Record>) {
    |rest| <= |history| && history[|history| - |rest|..] == rest
  }

  lemma EndsShorter(history: seq<Record>, cut: seq<Record>, rest: seq<Record>)
    requires Ends(history, cut + rest)
    ensures Ends(history, rest)
    ensures history[..|history| - |rest|] == history[..|history| - |cut + rest|] + cut
  {
    var n := |history| - |cut + rest|;
    assert history == history[..n] + history[n..];
  }

  /** What is pending takes the tables from where they are to the newest state. */
  lemma PendingLeads(start: Tables, history: seq<Record>, pending: seq<Record>)
    requires Ends(history, pending) && Chained(start, history)
    ensures var t := EnactAll(start, history[..|history| - |pending|]);
      EnactAll(t, pending) == EnactAll(start, history) && Chained(t, pending)
  {
    var n := |history| - |pending|;
    assert history == history[..n] + pending;
    EnactAllJoin(start, history[..n], pending);
    ChainedJoin(start, history[..n], pending);
  }

  lemma {:induction false} ChainedJoin(t: Tables, a: seq<Record>, b: seq<Record>)
    requires Chained(t, a + b)
    ensures Chained(t, a) && Chained(EnactAll(t, a), b)
  {
    hide Enact, Fresh;
    if b == [] {
      assert a + b == a;
    } else {
      var n := |b| - 1;
      assert (a + b)[..|a| + n] == a + b[..n];
      ChainedJoin(t, a, b[..n]);
      EnactAllJoin(t, a, b[..n]);
    }
  }

  lemma HistoryAppend(start: Tables, history: seq<Record>, r: Record)
    requires Chained(start, history) && Fresh(EnactAll(start, history), r)
    ensures Chained(start, history + [r]) && EnactAll(start, history + [r]) == Enact(EnactAll(start, history), r)
  {
    assert (history + [r])[..|history|] == history;
  }

  lemma QueueSnoc(m: map<Key, Value>, w: Worker, q: seq<C.Commit>, c: C.Commit)
    ensures C.OverlayOf(Shown(w, q + [c])) == C.CopyToOverlay(C.OverlayOf(Shown(w, q)), c.changes, c.id)
    ensures C.UpdateQueue(m, Unlogged(w, q + [c])) == UpdateAll(C.UpdateQueue(m, Unlogged(w, q)), c.changes)
    ensures Shown(w, q + [c]) == Shown(w, q) + [c]
  {
    hide UpdateAll, C.CopyToOverlay, C.OverlayOf, C.UpdateQueue;
    var s, u := Shown(w, q), Unlogged(w, q);
    assert Shown(w, q + [c]) == s + [c] && Unlogged(w, q + [c]) == u + [c];
    C.OverlaySnoc(s, c);
    C.UpdateQueueSnoc(m, u, c);
  }

  lemma AscendingTail(c: C.Commit, q: seq<C.Commit>, last: nat)
    requires Ascending([c] + q, last)
    ensures Ascending(q, last) && forall i :: 0 <= i < |q| ==> q[i].id != c.id
  {
    var s := [c] + q;
    forall i, j | 0 <= i < j < |q|
      ensures q[i].id < q[j].id
    {
      assert s[i + 1] == q[i] && s[j + 1] == q[j];
    }
    forall i | 0 <= i < |q|
      ensures c.id < q[i].id <= last
    {
      assert s[0] == c && s[i + 1] == q[i];
    }
  }

  // The commit queue and its overlay, over what the log and the tables hold (`base`).

  ghost predicate QueueFits(o: C.CommitOverlay, w: Worker, q: seq<C.Commit>, last: nat, base: map<Key, Value>,
                            committed: map<Key, Value>) {
    && o == C.OverlayOf(Shown(w, q))
    && Ascending(Shown(w, q), last)
    && committed == C.UpdateQueue(base, Unlogged(w, q))
    && (w.Logged? ==> UpdateAll(base, w.commit.changes) == base)
  }

  /** Reading through the overlay gives the latest committed value, whatever the stages of the commits. */
  lemma QueueShows(o: C.CommitOverlay, w: Worker, q: seq<C.Commit>, last: nat, base: map<Key, Value>,
                   committed: map<Key, Value>,
                   k: Key)
    requires QueueFits(o, w, q, last, base, committed)
    ensures C.Through(o, base, k) == C.Find(committed, k)
  {
    C.ThroughQueue(base, Shown(w, q), k);
    if w.Logged? {
      C.UpdateQueueCons(base, w.commit, q);
      assert [] + q == q;
    }
  }

  lemma QueueCommit(o: C.CommitOverlay, w: Worker, q: seq<C.Commit>, last: nat, base: map<Key, Value>,
                    committed: map<Key, Value>,
                    c: C.Commit)
    requires QueueFits(o, w, q, last, base, committed) && c.id == last + 1
    ensures QueueFits(C.CopyToOverlay(o, c.changes, c.id), w, q + [c], last + 1, base, UpdateAll(committed, c.changes))
  {
    hide UpdateAll, C.CopyToOverlay, C.OverlayOf, C.UpdateQueue;
    QueueSnoc(base, w, q, c);
  }

  lemma QueuePop(o: C.CommitOverlay, q: seq<C.Commit>, last: nat, base: map<Key, Value>, committed: map<Key, Value>)
    requires QueueFits(o, Idle, q, last, base, committed) && q != []
    ensures QueueFits(o, Planning(q[0]), q[1..], last, base, committed)
  {
    hide C.OverlayOf, C.UpdateQueue;
    assert [] + q == q == [q[0]] + q[1..];
  }

  lemma QueueLog(o: C.CommitOverlay, c: C.Commit, q: seq<C.Commit>, last: nat, base: map<Key, Value>,
                 committed: map<Key, Value>)
    requires QueueFits(o, Planning(c), q, last, base, committed)
    ensures QueueFits(o, Logged(c), q, last, UpdateAll(base, c.changes), committed)
  {
    hide UpdateAll, C.OverlayOf, C.UpdateQueue;
    C.UpdateQueueCons(base, c, q);
    C.UpdateTwice(base, c.changes);
    assert [] + q == q;
  }

  lemma QueueClean(o: C.CommitOverlay, c: C.Commit, q: seq<C.Commit>, last: nat, base: map<Key, Value>,
                   committed: map<Key, Value>)
    requires QueueFits(o, Logged(c), q, last, base, committed)
    ensures QueueFits(C.CleanOverlay(o, c.changes, c.id), Idle, q, last, base, committed)
  {
    hide UpdateAll, C.OverlayOf, C.UpdateQueue, C.CleanOverlay;
    AscendingTail(c, q, last);
    C.CleanFirst(c, q);
    assert [] + q == q;
  }

  // The log and the tables.

  /**
   * What has happened since the database was opened: the tables then, the records logged since and the id of the first
   * of them, and how many are known to be in the table files. A flush of a hash column covers its newest index table
   * only, not those queued for reindexing; `missed` says how many records are known to be in those left out by some
   * flush.
   */
  datatype Past = Past(start: Tables, first: nat, history: seq<Record>, flushed: nat, missed: map<nat, nat>) {
    ghost function Newest(): Tables {
      EnactAll(start, history)
    }

    /** How many records are known to be in the table file the cell is in. */
    ghost function FlushedAt(c: Cell): nat {
      if c.Item? && c.page.table in missed then missed[c.page.table] else flushed
    }
  }

  /** The flushes from now on leave these index tables out; what they have is what the last flush before gave them. */
  ghost function Missing(p: Past, queued: set<nat>): map<nat, nat> {
    p.missed + (map t | t in queued && t !in p.missed :: p.flushed)
  }

  ghost predicate MissedBefore(missed: map<nat, nat>, flushed: nat) {
    forall t :: t in missed ==> missed[t] <= flushed
  }

  /**
   * The tables hold the history up to the first pending record, and `last` is the id of the record before it. With
   * synced data no record that is not flushed has left the log.
   */
  ghost predicate LogFits(s: Stages, p: Past, tables: Tables, last: nat, syncData: bool) {
    && Chained(p.start, p.history) && Ends(p.history, s.All()) && Ends(p.history, s.Pending())
    && tables == EnactAll(p.start, p.history[..|p.history| - |s.Pending()|])
    && p.flushed <= |p.history| - |s.Pending()|
    && MissedBefore(p.missed, p.flushed)
    && (syncData ==> |p.history| - |s.All()| <= p.flushed)
    && s.nextRecordId == p.first + |p.history|
    && (|s.Pending()| < |p.history| ==> last == p.first + |p.history| - |s.Pending()| - 1)
  }

  lemma LogAppend(s: Stages, n: Stages, p: Past, tables: Tables, last: nat, syncData: bool, r: Record)
    requires LogFits(s, p, tables, last, syncData) && Fresh(p.Newest(), r)
    requires n.All() == s.All() + [r] && n.Pending() == s.Pending() + [r] && n.nextRecordId == s.nextRecordId + 1
    ensures var q := p.(history := p.history + [r]);
      LogFits(n, q, tables, last, syncData) && q.Newest() == Enact(p.Newest(), r)
  {
    hide MissedBefore, Enact, EnactAll, Chained, Fresh, Stages.All, Stages.Pending, Ends;
    HistoryAppend(p.start, p.history, r);
    EndsMore(p.history, s.All(), n.All(), r);
    EndsMore(p.history, s.Pending(), n.Pending(), r);
  }

  lemma EndsMore(history: seq<Record>, rest: seq<Record>, more: seq<Record>, r: Record)
    requires Ends(history, rest) && more == rest + [r]
    ensures |rest| <= |history| && |more| == |rest| + 1 && |history + [r]| == |history| + 1
    ensures Ends(history + [r], more) && (history + [r])[..|history| - |rest|] == history[..|history| - |rest|]
  {
  }

  /** Enacting the oldest pending record moves the tables on by one record of the history. */
  lemma LogEnact(s: Stages, n: Stages, p: Past, tables: Tables, last: nat, syncData: bool, r: Record)
    requires LogFits(s, p, tables, last, syncData)
    requires n.All() == s.All() && s.Pending() == [r] + n.Pending() && n.nextRecordId == s.nextRecordId
    requires Consecutive(s.Pending(), s.nextRecordId)
    ensures LogFits(n, p, Enact(tables, r), r.id, syncData)
  {
    hide MissedBefore, Enact, EnactAll, Chained, Stages.All, Stages.Pending;
    EndsShorter(p.history, [r], n.Pending());
    EnactAllOne(p.start, p.history[..|p.history| - |s.Pending()|], r);
    assert s.Pending()[0] == r;
  }

  lemma EnactAllOne(t: Tables, rs: seq<Record>, r: Record)
    ensures EnactAll(t, rs + [r]) == Enact(EnactAll(t, rs), r)
  {
    assert (rs + [r])[..|rs|] == rs;
  }

  /** The tables as they are now are flushed, but for the index tables in `queued`. */
  ghost function AfterFlush(p: Past, s: Stages, queued: set<nat>): Past {
    if |s.Pending()| <= |p.history| then p.(flushed := |p.history| - |s.Pending()|, missed := Missing(p, queued)) else p
  }

  lemma LogFlush(s: Stages, p: Past, tables: Tables, last: nat, syncData: bool, queued: set<nat>)
    requires LogFits(s, p, tables, last, syncData)
    ensures |s.Pending()| <= |p.history| && LogFits(s, AfterFlush(p, s, queued), tables, last, syncData)
  {
    hide EnactAll, Chained, Stages.All, Stages.Pending;
  }

  /** Files that have been read can leave the log once the tables are flushed. */
  lemma LogClean(s: Stages, n: Stages, p: Past, tables: Tables, last: nat, syncData: bool, cut: seq<Record>)
    requires LogFits(s, p, tables, last, syncData) && (syncData ==> p.flushed == |p.history| - |s.Pending()|)
    requires s.All() == cut + n.All() && n.Pending() == s.Pending() && |n.Pending()| <= |n.All()|
    requires n.nextRecordId == s.nextRecordId
    ensures LogFits(n, p, tables, last, syncData)
  {
    hide MissedBefore, EnactAll, Chained, Stages.All, Stages.Pending;
    EndsShorter(p.history, cut, n.All());
  }

  /** Steps that only move files between stages. */
  lemma LogSame(s: Stages, n: Stages, p: Past, tables: Tables, last: nat, syncData: bool)
    requires LogFits(s, p, tables, last, syncData)
    requires n.All() == s.All() && n.Pending() == s.Pending() && n.nextRecordId == s.nextRecordId
    ensures LogFits(n, p, tables, last, syncData)
  {
    hide MissedBefore, Chained, EnactAll, Stages.All, Stages.Pending, Ends;
  }

  /** What is left after the last removals is the file that was never read. */
  lemma LogKilled(s: Stages, p: Past, tables: Tables, last: nat, syncData: bool, sync: bool)
    requires LogFits(s, p, tables, last, syncData) && s.Valid(sync)
    requires !s.isReading && s.cleanup == [] && s.appending.None? && p.flushed == |p.history| - |s.Pending()|
    ensures LogFits(Killed(s), p, tables, last, syncData)
    ensures s.Pending() == RecordsIn(s.flushing) && tables == EnactAll(p.start, p.history[..p.flushed])
    ensures EnactAll(tables, RecordsIn(s.flushing)) == p.Newest()
  {
    hide EnactAll, Chained, Stages.All, Stages.Valid, Stages.Pending, Ends;
    KilledValid(s, sync);
    OnlyFlushing(s, sync);
    PendingLeads(p.start, p.history, s.Pending());
  }

  lemma OnlyFlushing(s: Stages, sync: bool)
    requires s.Valid(sync) && !s.isReading && s.appending.None?
    ensures s.Pending() == RecordsIn(s.flushing)
  {
    hide Flat, IdsOf, AllDistinct, OverlayOf, Total, Consecutive;
  }

  /** Reading through the log overlay is reading the newest state. */
  lemma LogShows(s: Stages, p: Past, tables: Tables, last: nat, syncData: bool, sync: bool, lookup: Reader)
    requires s.Valid(sync) && LogFits(s, p, tables, last, syncData) && Respects(lookup)
    ensures Chained(tables, s.Pending()) && EnactAll(tables, s.Pending()) == p.Newest()
    ensures lookup(ViewOf(tables, s.overlays)) == lookup(StateOf(p.Newest()))
  {
    hide Chained, EnactAll, Ends, Alike, ViewOf, StateOf, Respects, Stages.All, Stages.Pending, Stages.Staged;
    PendingLeads(p.start, p.history, s.Pending());
    LookupIsNewest(lookup, tables, s.Pending());
  }

  // Which commits the records carry.

  /** However many of the records are enacted, a reader gets the commits they carry, whole and in order. */
  ghost predicate CarriedBy(lookup: Reader, start: Tables, history: seq<Record>, carried: seq<C.Commit>) {
    |carried| == |history| && forall n :: 0 <= n <= |history| ==> CarriedUpTo(lookup, start, history, carried, n)
  }

  ghost predicate CarriedUpTo(lookup: Reader, start: Tables, history: seq<Record>, carried: seq<C.Commit>, n: nat)
    requires n <= |history| && n <= |carried|
  {
    lookup(StateOf(EnactAll(start, history[..n]))) == C.UpdateQueue(lookup(StateOf(start)), carried[..n])
  }

  /** A record that carries no commit. */
  const NoCommit := C.Commit(0, [])

  lemma CarriedNone(lookup: Reader, start: Tables)
    ensures CarriedBy(lookup, start, [], [])
  {
    hide StateOf;
  }

  lemma CarriedMore(lookup: Reader, p: Past, carried: seq<C.Commit>, r: Record, c: C.Commit)
    requires CarriedBy(lookup, p.start, p.history, carried)
    requires lookup(StateOf(Enact(p.Newest(), r))) == UpdateAll(lookup(StateOf(p.Newest())), c.changes)
    ensures CarriedBy(lookup, p.start, p.history + [r], carried + [c])
  {
    hide StateOf, EnactAll, Enact, UpdateAll, C.UpdateQueue;
    var h, cs := p.history + [r], carried + [c];
    forall n | 0 <= n <= |h|
      ensures CarriedUpTo(lookup, p.start, h, cs, n)
    {
      if n < |h| {
        assert h[..n] == p.history[..n] && cs[..n] == carried[..n];
        assert CarriedUpTo(lookup, p.start, p.history, carried, n);
      } else {
        assert h[..n] == h && cs[..n] == cs && p.history[..|p.history|] == p.history && carried[..|carried|] == carried;
        assert CarriedUpTo(lookup, p.start, p.history, carried, |p.history|);
        EnactAllOne(p.start, p.history, r);
        C.UpdateQueueSnoc(lookup(StateOf(p.start)), carried, c);
      }
    }
  }

  lemma NoChange(m: map<Key, Value>)
    ensures UpdateAll(m, NoCommit.changes) == m
  {
  }

  class Db {
    const log: Log
    const syncData: bool
    var tables: Tables
    var commits: seq<C.Commit>
    var overlay: C.CommitOverlay
    var queueId: nat
    var lastEnacted: nat
    var worker: Worker

    /** How the columns read what the log overlay and the tables show. */
    ghost const lookup: Reader
    /** The index tables queued for reindexing. */
    ghost var queued: set<nat>
    ghost var past: Past
    /** The commit that each record of the past carries. */
    ghost var carried: seq<C.Commit>
    /** Every commit accepted so far, applied in order. */
    ghost var committed: map<Key, Value>

    ghost predicate Valid()
      reads this, log
    {
      && Respects(lookup)
      && QueueFits(overlay, worker, commits, queueId + 1, lookup(StateOf(past.Newest())), committed)
      && log.Valid() && LogFits(log.State(), past, tables, lastEnacted, syncData)
      && CarriedBy(lookup, past.start, past.history, carried)
    }

    /** What a reader gets for a key: from the commit overlay, else through the log overlay from the tables. */
    ghost function Get(k: Key): Option<Value>
      reads this, log
    {
      C.Through(overlay, lookup(ViewOf(tables, log.overlays)), k)
    }

    /** In every state a reader gets the latest committed value, wherever the commits, records and writes are. */
    lemma GetIsLatest()
      requires Valid()
      ensures forall k :: Get(k) == C.Find(committed, k)
    {
      hide CarriedBy, QueueFits, LogFits, C.Through, C.Find, EnactAll, Stages.Valid, ViewOf, StateOf, Respects;
      LogShows(log.State(), past, tables, lastEnacted, syncData, log.sync, lookup);
      forall k
        ensures Get(k) == C.Find(committed, k)
      {
        QueueShows(overlay, worker, commits, queueId + 1, lookup(StateOf(past.Newest())), committed, k);
      }
    }

    /** Every cell reads as in the newest state, from the overlay or from the tables. */
    lemma CellIsNewest(c: Cell)
      requires Valid() && InRange(c)
      ensures See(tables, log.overlays, c) == At(past.Newest(), c)
    {
      hide CarriedBy, QueueFits, See, Chained, EnactAll, Ends, AllDistinct, Consecutive, Stages.All, Stages.Staged;
      hide Stages.Pending, Respects;
      PendingLeads(past.start, past.history, log.Pending());
      SeeIsNewest(tables, log.Pending(), c);
    }

    /** Nor does a reader notice when any part of the oldest pending record has been written. */
    lemma PartlyEnacted(part: map<Cell, Data>)
      requires Valid() && NextRecord(log.State()).Some?
      requires forall c :: c in part ==>
        NextRecord(log.State()).value.Writes(c) && part[c] == NextRecord(log.State()).value.DataAt(c)
      ensures forall k :: C.Through(overlay, lookup(ViewOf(tables + part, log.overlays)), k) == Get(k)
    {
      hide CarriedBy, QueueFits, LogFits, C.Through, Chained, EnactAll, Stages.Pending, Stages.All, ViewOf, StateOf;
      hide Respects, See;
      hide Record.Writes, Record.DataAt;
      var r := NextRecord(log.State()).value;
      LogShows(log.State(), past, tables, lastEnacted, syncData, log.sync, lookup);
      FirstPending(log.State());
      var rest := log.State().(readPos := log.readPos + 1).Pending();
      EnactPart(tables, part, r, rest);
      LookupIsNewest(lookup, tables + part, [r] + rest);
    }

    /**
     * A database with nothing left to replay and nothing logged. Record ids go on from `first`; a new database starts
     * with 1 and, there being no record before it, counts record 1 as enacted.
     */
    constructor (sync: bool, syncData: bool, tables: Tables, first: nat, lastEnacted: nat, ghost lookup: Reader)
      requires first > 0 && Respects(lookup)
      ensures Valid() && fresh(log) && log.sync == sync && this.syncData == syncData && this.lookup == lookup
      ensures committed == lookup(StateOf(tables)) && past == Past(tables, first, [], 0, map[]) && queued == {}
      ensures commits == [] && worker.Idle? && this.lastEnacted == lastEnacted && carried == []
      ensures log.nextRecordId == first && log.All() == []
    {
      hide CarriedBy, Stages.Valid, Stages.All, Stages.Pending, Respects, QueueFits, LogFits, StateOf;
      NewFits(lookup(StateOf(tables)));
      log := new Log(sync, first);
      this.syncData, this.tables, this.lookup, this.lastEnacted := syncData, tables, lookup, lastEnacted;
      commits, overlay, queueId, worker := [], map[], 0, Idle;
      queued, past, committed := {}, Past(tables, first, [], 0, map[]), lookup(StateOf(tables));
      carried := [];
      CarriedNone(lookup, tables);
      new;
      NewLogFits(log.State(), past, tables, lastEnacted, syncData);
    }

    /** Queues a commit and shows it in the overlay. */
    method Commit(changes: seq<Change>)
      requires Valid()
      modifies this`commits, this`overlay, this`queueId, this`committed
      ensures Valid() && committed == UpdateAll(old(committed), changes)
      ensures |commits| == |old(commits)| + 1 && commits[..|old(commits)|] == old(commits)
      ensures commits[|old(commits)|].changes == changes
      ensures forall k :: Get(k) == C.Find(committed, k)
    {
      hide CarriedBy, QueueFits, LogFits, UpdateAll, C.Through, C.Find, C.CopyToOverlay, EnactAll, Stages.Valid;
      hide ViewOf, StateOf, Respects;
      queueId := queueId + 1;
      var c := C.Commit(queueId + 1, changes);
      QueueCommit(overlay, worker, commits, queueId, lookup(StateOf(past.Newest())), committed, c);
      overlay := C.CopyToOverlay(overlay, changes, c.id);
      commits := commits + [c];
      committed := UpdateAll(committed, changes);
      GetIsLatest();
    }

    /** The log worker takes the oldest commit. */
    method PopCommit() returns (some: bool)
      requires Valid() && worker.Idle?
      modifies this`commits, this`worker
      ensures Valid() && some == (old(commits) != []) && (some <==> worker.Planning?) && (!some ==> worker.Idle?)
      ensures if some then old(commits) == [worker.commit] + commits else commits == old(commits)
      ensures forall k :: Get(k) == old(Get(k))
    {
      hide CarriedBy, QueueFits, LogFits, C.Through, EnactAll, Stages.Valid, ViewOf, StateOf, Respects;
      some := commits != [];
      if some {
        QueuePop(overlay, commits, queueId + 1, lookup(StateOf(past.Newest())), committed);
        worker, commits := Planning(commits[0]), commits[1..];
      }
    }

    /**
     * The worker logs its commit as one record. The record was planned on the newest state, and carries out the
     * commit's changes as far as the columns' readers are concerned.
     */
    method LogCommit(r: Record, bytes: nat)
      requires Valid() && worker.Planning? && r.id == log.nextRecordId && bytes > 0
      requires Carries(lookup, past.Newest(), worker.commit, r)
      modifies this`worker, this`past, this`carried, log
      ensures Valid() && worker == Logged(old(worker).commit) && carried == old(carried) + [old(worker).commit]
      ensures past == old(past).(history := old(past.history) + [r])
      ensures log.State() == Ended(old(log.State()), r, bytes)
      ensures forall k :: Get(k) == old(Get(k))
    {
      hide CarriedBy, QueueFits, LogFits, UpdateAll, C.Through, C.Find, Fresh, Enact, EnactAll, Ended, ViewOf;
      hide StateOf, Respects;
      hide Stages.Valid, Stages.All, Stages.Pending;
      GetIsLatest();
      QueueLog(overlay, worker.commit, commits, queueId + 1, lookup(StateOf(past.Newest())), committed);
      LogAppend(log.State(), Ended(log.State(), r, bytes), past, tables, lastEnacted, syncData, r) by {
        EndedValid(log.State(), r, bytes, log.sync);
        EndedFields(log.State(), r, bytes);
      }
      log.EndRecord(r, bytes);
      CarriedMore(lookup, past, carried, r, worker.commit);
      carried := carried + [worker.commit];
      past := past.(history := past.history + [r]);
      worker := Logged(worker.commit);
      GetIsLatest();
    }

    /** The logged commit is cleaned off the overlay, except where a later commit has taken its place. */
    method CleanCommit()
      requires Valid() && worker.Logged?
      modifies this`worker, this`overlay
      ensures Valid() && worker.Idle?
      ensures forall k :: Get(k) == old(Get(k))
    {
      hide CarriedBy, QueueFits, LogFits, C.Through, C.Find, C.CleanOverlay, EnactAll, Stages.Valid, ViewOf, StateOf;
      hide Respects;
      GetIsLatest();
      var c := worker.commit;
      QueueClean(overlay, c, commits, queueId + 1, lookup(StateOf(past.Newest())), committed);
      overlay := C.CleanOverlay(overlay, c.changes, c.id);
      worker := Idle;
      GetIsLatest();
    }

    /** The log worker logs a record of its own, such as a batch of reindexing, which readers do not notice. */
    method LogReindex(r: Record, bytes: nat)
      requires Valid() && worker.Idle? && r.id == log.nextRecordId && bytes > 0
      requires Fresh(past.Newest(), r) && lookup(StateOf(Enact(past.Newest(), r))) == lookup(StateOf(past.Newest()))
      modifies this`past, this`carried, log
      ensures Valid() && past == old(past).(history := old(past.history) + [r]) && carried == old(carried) + [NoCommit]
      ensures log.State() == Ended(old(log.State()), r, bytes)
      ensures forall k :: Get(k) == old(Get(k))
    {
      hide CarriedBy, QueueFits, LogFits, C.Through, C.Find, Fresh, Enact, EnactAll, Ended, Stages.Valid, Stages.All;
      hide Stages.Pending, ViewOf, StateOf, Respects, Sum, TakesFile, RecordsIn;
      GetIsLatest();
      LogAppend(log.State(), Ended(log.State(), r, bytes), past, tables, lastEnacted, syncData, r) by {
        EndedValid(log.State(), r, bytes, log.sync);
        EndedFields(log.State(), r, bytes);
      }
      log.EndRecord(r, bytes);
      NoChange(lookup(StateOf(past.Newest())));
      CarriedMore(lookup, past, carried, r, NoCommit);
      carried := carried + [NoCommit];
      past := past.(history := past.history + [r]);
      GetIsLatest();
    }

    /** An index table makes way for a wider one and waits for its entries to be moved. */
    method QueueIndex(table: nat)
      requires Valid()
      modifies this`queued
      ensures Valid() && queued == old(queued) + {table}
      ensures forall k :: Get(k) == old(Get(k))
    {
      hide CarriedBy, QueueFits, LogFits, C.Through, EnactAll, Stages.Valid, ViewOf, StateOf, Respects;
      queued := queued + {table};
    }

    /** Its entries have been moved. */
    method DropIndex(table: nat)
      requires Valid()
      modifies this`queued
      ensures Valid() && queued == old(queued) - {table}
      ensures forall k :: Get(k) == old(Get(k))
    {
      hide CarriedBy, QueueFits, LogFits, C.Through, EnactAll, Stages.Valid, ViewOf, StateOf, Respects;
      queued := queued - {table};
    }

    /** Writes one cell of the oldest pending record to the tables. Readers notice nothing. */
    method WriteCell(c: Cell, data: Data, ghost was: Tables, ghost r: Record, ghost rest: seq<Record>,
                     ghost done: set<Cell>)
      requires Respects(lookup) && log.overlays == OverlayOf([r] + rest)
      requires Underway(was, tables, done, r, rest) && r.Writes(c) && data == r.DataAt(c)
      modifies this`tables
      ensures tables == old(tables)[c := data] && Underway(was, tables, done + {c}, r, rest)
      ensures forall k :: Get(k) == old(Get(k))
    {
      hide Chained, EnactAll, Underway, ViewOf, StateOf, Respects, C.Through, Record.Writes, Record.DataAt;
      UnderwayStep(was, tables, done, r, rest, c);
      UnderwaySame(was, tables, done, tables[c := data], done + {c}, r, rest, lookup);
      tables := tables[c := data];
    }

    /** Writes a record to the tables, cell by cell, in whatever order its maps give. */
    method EnactRecord(r: Record, ghost rest: seq<Record>)
      requires Respects(lookup) && log.overlays == OverlayOf([r] + rest) && Chained(tables, [r] + rest)
      modifies this`tables
      ensures tables == Enact(old(tables), r)
      ensures forall k :: Get(k) == old(Get(k))
    {
      hide Enact, Chained, EnactAll, Underway, WritesOf, ViewOf, StateOf, Respects, C.Through, OverlayOf;
      UnderwayStart(tables, r, rest);
      ghost var done := {};
      var slots := r.slots;
      while slots != map[]
        invariant Underway(old(tables), tables, done, r, rest)
        invariant forall k :: Get(k) == old(Get(k))
        invariant forall s :: s in r.slots ==> s in slots || Slot(s) in done
        invariant forall s :: s in slots ==> s in r.slots && slots[s] == r.slots[s]
        decreases |slots|
      {
        var s :| s in slots;
        WriteCell(Slot(s), slots[s], old(tables), r, rest, done);
        done := done + {Slot(s)};
        slots := slots - {s};
      }
      var pages := r.pages;
      while pages != map[]
        invariant Underway(old(tables), tables, done, r, rest) && (forall s :: s in r.slots ==> Slot(s) in done)
        invariant forall k :: Get(k) == old(Get(k))
        invariant forall p :: p in r.pages ==> p in pages || PageIn(done, r, p)
        invariant forall p :: p in pages ==> p in r.pages && pages[p] == r.pages[p]
        decreases |pages|
      {
        var p :| p in pages;
        done := EnactPage(p, pages[p], old(tables), r, rest, done);
        pages := pages - {p};
      }
      UnderwayEnd(old(tables), tables, done, r, rest);
    }

    /** Writes the masked entries of one page. */
    method EnactPage(p: PageId, w: PageWrite, ghost was: Tables, ghost r: Record, ghost rest: seq<Record>,
                     ghost done: set<Cell>)
      returns (ghost now: set<Cell>)
      requires Respects(lookup) && log.overlays == OverlayOf([r] + rest)
      requires p in r.pages && w == r.pages[p] && Underway(was, tables, done, r, rest)
      modifies this`tables
      ensures Underway(was, tables, now, r, rest) && done <= now && PageIn(now, r, p)
      ensures forall k :: Get(k) == old(Get(k))
    {
      hide Enact, Chained, EnactAll, Underway, ViewOf, StateOf, Respects, C.Through, OverlayOf;
      PagesValid(was, tables, done, r, rest);
      now := done;
      var mask := w.mask;
      while mask != {}
        invariant Underway(was, tables, now, r, rest) && done <= now
        invariant forall k :: Get(k) == old(Get(k))
        invariant mask <= w.mask && forall i :: i in w.mask && i !in mask ==> Item(p, i) in now
        decreases |mask|
      {
        var i :| i in mask;
        WriteCell(Item(p, i), w.page[i], was, r, rest, now);
        now := now + {Item(p, i)};
        mask := mask - {i};
      }
    }

    /** Enacts the next unread record, if there is one. */
    method EnactLogs() returns (more: bool)
      requires Valid()
      modifies this`tables, this`lastEnacted, log
      ensures Valid() && more == NextRecord(old(log.State())).Some? && more == log.isReading
      ensures log.State() == AfterEnact(old(log.State()))
      ensures log.All() == old(log.All()) && |log.Pending()| == old(|log.Pending()|) - if more then 1 else 0
      ensures more ==> tables == Enact(old(tables), NextRecord(old(log.State())).value)
      ensures more ==> lastEnacted == NextRecord(old(log.State())).value.id
      ensures !more ==> tables == old(tables) && lastEnacted == old(lastEnacted)
      ensures forall k :: Get(k) == old(Get(k))
    {
      hide CarriedBy, QueueFits, LogFits, C.Through, C.Find, Chained, Enact, EnactAll, Stages.Valid, Stages.All;
      hide Stages.Pending, Clear;
      hide ViewOf, StateOf, Respects, OverlayOf, Consecutive;
      GetIsLatest();
      ghost var s := log.State();
      var next := log.ReadNext();
      if next.None? {
        LogSame(s, log.State(), past, tables, lastEnacted, syncData);
        GetIsLatest();
        return false;
      }
      var r := next.value;
      assert log.State() == s;
      EndReadValid(s, log.sync);
      ghost var rest := AfterEndRead(s, r).Pending();
      PendingFacts(s, log.sync);
      LogEnact(s, AfterEndRead(s, r), past, tables, lastEnacted, syncData, r);
      LogShows(s, past, tables, lastEnacted, syncData, log.sync, lookup);
      EnactRecord(r, rest);
      lastEnacted := r.id;
      log.EndRead();
      more := true;
      GetIsLatest();
    }

    /** Moves the log files on by one stage and syncs the one to be read next. */
    method FlushLogs(minSize: nat) returns (more: bool)
      requires Valid() && !log.syncing && (log.flushing.Some? ==> !log.isReading)
      modifies log
      ensures Valid() && !log.syncing && (log.sync && log.flushing.Some? ==> log.flushing.value.synced)
      ensures log.State() == Synced(Rotated(old(log.State()), minSize), log.sync)
      ensures log.nextRecordId == old(log.nextRecordId)
      ensures minSize == 0 ==> log.appending.None?
      ensures if old(log.appending.Some? && log.appending.value.size > minSize)
        then log.appending.None? && log.flushing == Some(old(log.appending.value).(synced := log.sync))
        else log.appending == old(log.appending) && log.flushing.None?
      ensures if old(log.flushing).Some?
        then log.reading == old(log.flushing) && log.readPos == 0 && log.isReading
        else log.reading == old(log.reading) && log.readPos == old(log.readPos) && log.isReading == old(log.isReading)
      ensures log.All() == old(log.All()) && log.Pending() == old(log.Pending()) && more == log.flushing.Some?
      ensures forall k :: Get(k) == old(Get(k))
    {
      hide CarriedBy, QueueFits, LogFits, C.Through, C.Find, EnactAll, Stages.Valid, Stages.All, Stages.Pending;
      hide ViewOf, StateOf, Respects;
      GetIsLatest();
      ghost var s := log.State();
      NothingAppending(s, log.sync);
      var flushNext, readNext, cleanup := log.FlushOne(minSize);
      more := flushNext;
      LogSame(s, log.State(), past, tables, lastEnacted, syncData);
      GetIsLatest();
    }

    /** Flushes the columns: everything written so far, but for the index tables queued for reindexing. */
    method FlushColumns()
      requires Valid()
      modifies this`past
      ensures Valid() && |log.Pending()| <= |past.history|
      ensures past == old(past).(flushed := |past.history| - |log.Pending()|, missed := Missing(old(past), queued))
      ensures forall k :: Get(k) == old(Get(k))
    {
      hide CarriedBy, QueueFits, LogFits, C.Through, EnactAll, Stages.Valid, Stages.All, Stages.Pending, ViewOf;
      hide StateOf, Respects;
      LogFlush(log.State(), past, tables, lastEnacted, syncData, queued);
      past := AfterFlush(past, log.State(), queued);
    }

    /** Drops the oldest `count` files read to their end. */
    method DropLogs(count: nat) returns (more: bool)
      requires Valid() && count <= |log.cleanupQueue|
      requires syncData ==> |log.Pending()| <= |past.history| && past.flushed == |past.history| - |log.Pending()|
      modifies log
      ensures Valid() && log.State() == Cleaned(old(log.State()), count) && log.Pending() == old(log.Pending())
      ensures log.cleanupQueue == old(log.cleanupQueue)[count..] && more == (log.cleanupQueue != [])
      ensures forall k :: Get(k) == old(Get(k))
    {
      hide CarriedBy, QueueFits, LogFits, C.Through, C.Find, EnactAll, Stages.Valid, Stages.All, Stages.Pending;
      hide Cleaned, Flat;
      hide ViewOf, StateOf, Respects;
      GetIsLatest();
      ghost var s := log.State();
      CleanedValid(s, count, log.sync);
      CleanedCounts(s, count, log.sync);
      LogClean(s, Cleaned(s, count), past, tables, lastEnacted, syncData, Flat(s.cleanup[..count]));
      more := log.CleanLogs(count);
      GetIsLatest();
    }

    /**
     * Drops the logs of files read to their end: after flushing the tables, or, without synced data, all but sixteen.
     */
    method CleanLogs() returns (more: bool)
      requires Valid()
      modifies this`past, log
      ensures Valid() && log.Pending() == old(log.Pending())
      ensures var n := |old(log.cleanupQueue)|;
        var dropped := if syncData then n else if n > 16 then n - 16 else 0;
        log.cleanupQueue == old(log.cleanupQueue)[dropped..] && more == (dropped > 0 && log.cleanupQueue != [])
      ensures |log.Pending()| <= |past.history|
      ensures past == if syncData && old(log.cleanupQueue) != []
        then old(past).(flushed := |past.history| - |log.Pending()|, missed := Missing(old(past), queued))
        else old(past)
      ensures forall k :: Get(k) == old(Get(k))
    {
      hide CarriedBy, QueueFits, LogFits, C.Through, EnactAll, Stages.Valid, Stages.All, Stages.Pending, Cleaned;
      hide ViewOf, StateOf, Respects;
      LogFlush(log.State(), past, tables, lastEnacted, syncData, {});
      var keep := if syncData then 0 else KEEP_LOGS;
      var dirty := |log.cleanupQueue|;
      if dirty <= keep {
        return false;
      }
      if syncData {
        FlushColumns();
      }
      more := DropLogs(dirty - keep);
    }

    /** Flushes the tables and drops every log file read to its end. */
    method CleanAllLogs()
      requires Valid()
      modifies this`past, log
      ensures Valid() && log.cleanupQueue == [] && log.Pending() == old(log.Pending())
      ensures |log.Pending()| <= |past.history|
      ensures past == old(past).(flushed := |past.history| - |log.Pending()|, missed := Missing(old(past), queued))
      ensures log.appending == old(log.appending) && log.flushing == old(log.flushing)
      ensures log.isReading == old(log.isReading)
      ensures log.syncing == old(log.syncing)
      ensures forall k :: Get(k) == old(Get(k))
    {
      hide CarriedBy, QueueFits, LogFits, C.Through, EnactAll, Stages.Valid, Stages.All, Stages.Pending, Pooled;
      hide Trimmed, ViewOf, StateOf, Respects;
      FlushColumns();
      var _ := DropLogs(|log.cleanupQueue|);
    }

    /** Takes the oldest commit through planning, logging and cleaning. */
    method ProcessCommit(r: Record, bytes: nat)
      requires Valid() && worker.Idle? && commits != [] && r.id == log.nextRecordId && bytes > 0
      requires Carries(lookup, past.Newest(), commits[0], r)
      modifies this`commits, this`worker, this`past, this`carried, this`overlay, log
      ensures Valid() && worker.Idle? && commits == old(commits)[1..] && carried == old(carried) + [old(commits)[0]]
      ensures past == old(past).(history := old(past.history) + [r])
      ensures log.State() == Ended(old(log.State()), r, bytes)
      ensures forall k :: Get(k) == old(Get(k))
    {
      hide CarriedBy, QueueFits, LogFits, C.Through, Carries, EnactAll, Ended, Stages.Valid, Stages.All;
      hide Stages.Pending, ViewOf, StateOf, Respects;
      var some := PopCommit();
      LogCommit(r, bytes);
      CleanCommit();
    }

    /** Enacts records until the file being read is at its end. */
    method EnactAllLogs()
      requires Valid()
      modifies this`tables, this`lastEnacted, log
      ensures Valid() && !log.isReading && SameFiles(old(log.State()), log.State())
      ensures log.All() == old(log.All()) && forall k :: Get(k) == old(Get(k))
    {
      hide CarriedBy, QueueFits, LogFits, C.Through, Enact, EnactAll, Stages.Valid, Stages.All, Stages.Pending, Clear;
      hide ViewOf, StateOf, Respects;
      var more := true;
      while more
        invariant Valid() && (more || !log.isReading) && SameFiles(old(log.State()), log.State())
        invariant log.All() == old(log.All())
        invariant forall k :: Get(k) == old(Get(k))
        decreases |log.Pending()|, more
      {
        more := EnactLogs();
      }
    }

    /** Logs every commit still queued. */
    method ProcessCommits(plans: seq<Planned>)
      requires Valid() && worker.Idle? && Plans(lookup, past.Newest(), commits, plans, log.nextRecordId)
      modifies this`commits, this`worker, this`past, this`carried, this`overlay, log
      ensures Valid() && worker.Idle? && commits == [] && carried == old(carried) + old(commits)
      ensures AddsSame(old(past.history), past.history, old(RecordsIn(log.appending)), RecordsIn(log.appending))
      ensures SameBehind(old(log.State()), log.State())
      ensures forall k :: Get(k) == old(Get(k))
    {
      hide CarriedBy, QueueFits, LogFits, C.Through, Enact, EnactAll, Ended, Carries, Stages.Valid, Stages.All;
      hide Stages.Pending, ViewOf, StateOf, Respects, AddsSame, RecordsIn, Sum;
      var i := 0;
      AddsNone(past.history, RecordsIn(log.appending));
      while commits != []
        invariant Valid() && worker.Idle? && i <= |plans| && carried + commits == old(carried) + old(commits)
        invariant Plans(lookup, past.Newest(), commits, plans[i..], log.nextRecordId)
        invariant AddsSame(old(past.history), past.history, old(RecordsIn(log.appending)), RecordsIn(log.appending))
        invariant SameBehind(old(log.State()), log.State())
        invariant forall k :: Get(k) == old(Get(k))
        decreases |commits|
      {
        ghost var s, p := log.State(), past;
        assert plans[i..][0] == plans[i] && plans[i..][1..] == plans[i + 1..];
        EndedAdds(s, plans[i].record, plans[i].bytes, p.history);
        ProcessCommit(plans[i].record, plans[i].bytes);
        EnactAllOne(p.start, p.history, plans[i].record);
        AddsTwice(old(past.history), p.history, past.history, old(RecordsIn(log.appending)), RecordsIn(s.appending),
                  RecordsIn(log.appending));
        i := i + 1;
      }
    }

    /** Enacts what the file being read still has, and moves the log files on. */
    method Settle()
      requires Valid() && !log.syncing
      modifies this`tables, this`lastEnacted, log
      ensures Valid() && !log.syncing && log.nextRecordId == old(log.nextRecordId)
      ensures log.appending.None? && (log.sync && log.flushing.Some? ==> log.flushing.value.synced)
      ensures RecordsIn(log.flushing) == old(RecordsIn(log.appending))
      ensures forall k :: Get(k) == old(Get(k))
    {
      hide CarriedBy, QueueFits, LogFits, C.Through, C.Find, Enact, EnactAll, Stages.Valid, Stages.All;
      hide Stages.Pending, Rotated, Synced, ViewOf, StateOf, Respects;
      FileSized(log.State(), log.sync);
      EnactAllLogs();
      var _ := FlushLogs(0);
    }

    /** The end of the shutdown sequence, once every commit is logged. */
    method Finish()
      requires Valid() && worker.Idle? && commits == [] && !log.syncing
      modifies this`tables, this`lastEnacted, this`past, log
      ensures Valid() && ShutDown(log.State()) && past.start == old(past.start) && past.history == old(past.history)
      ensures RecordsIn(log.flushing) == old(RecordsIn(log.appending))
      ensures log.sync && log.flushing.Some? ==> log.flushing.value.synced
      ensures past.flushed == |past.history| - |RecordsIn(log.flushing)|
      ensures tables == EnactAll(past.start, past.history[..past.flushed])
      ensures EnactAll(tables, RecordsIn(log.flushing)) == past.Newest() && lookup(StateOf(past.Newest())) == committed
      ensures forall k :: Get(k) == old(Get(k))
    {
      hide CarriedBy, QueueFits, LogFits, C.Through, C.Find, Enact, EnactAll, Stages.Valid, Stages.All;
      hide Stages.Pending, Cleaned, Flat, Rotated, Synced, ViewOf, StateOf, Respects;
      GetIsLatest();
      Settle();
      EnactAllLogs();
      CleanAllLogs();
      LogKilled(log.State(), past, tables, lastEnacted, syncData, log.sync);
      log.KillLogs();
      QueueEmpty(overlay, queueId + 1, lookup(StateOf(past.Newest())), committed);
      GetIsLatest();
    }

    /**
     * The shutdown sequence. Wherever the commits and the files were, at its end every commit is in the flushed tables
     * or in one complete log file, which is the only one left and which leads from the tables to the newest state.
     */
    method KillLogs(plans: seq<Planned>)
      requires Valid() && worker.Idle? && !log.syncing && Plans(lookup, past.Newest(), commits, plans, log.nextRecordId)
      modifies this`tables, this`lastEnacted, this`commits, this`worker, this`past, this`carried, this`overlay, log
      ensures Valid() && worker.Idle? && commits == [] && carried == old(carried) + old(commits)
      ensures ShutDown(log.State())
      ensures old(past.history) + RecordsIn(log.flushing) == past.history
      ensures log.sync && log.flushing.Some? ==> log.flushing.value.synced
      ensures past.flushed == |past.history| - |RecordsIn(log.flushing)|
      ensures tables == EnactAll(past.start, past.history[..past.flushed])
      ensures EnactAll(tables, RecordsIn(log.flushing)) == past.Newest() && lookup(StateOf(past.Newest())) == committed
      ensures forall k :: Get(k) == old(Get(k))
    {
      hide CarriedBy, QueueFits, LogFits, C.Through, C.Find, Enact, EnactAll, Stages.Valid, Stages.All;
      hide Stages.Pending, Plans, ViewOf, StateOf, Respects, AddsSame, RecordsIn, Sum, ShutDown;
      ghost var h := past.history;
      Settle();
      AddsAlone(h);
      ProcessCommits(plans);
      Finish();
    }
  }

  /** The same records have been added to both. */
  ghost predicate AddsSame(h: seq<Record>, more: seq<Record>, f: seq<Record>, g: seq<Record>) {
    |h| <= |more| && more[..|h|] == h && g == f + more[|h|..]
  }

  lemma AddsNone(h: seq<Record>, f: seq<Record>)
    ensures AddsSame(h, h, f, f)
  {
  }

  lemma AddsMore(h: seq<Record>, more: seq<Record>, f: seq<Record>, g: seq<Record>, r: Record)
    requires AddsSame(h, more, f, g)
    ensures AddsSame(h, more + [r], f, g + [r])
  {
    assert (more + [r])[|h|..] == more[|h|..] + [r];
  }

  lemma AddsAlone(h: seq<Record>)
    ensures RecordsIn(None) == []
    ensures forall more, g :: AddsSame(h, more, [], g) ==> h + g == more
  {
  }

  lemma AddsTwice(h: seq<Record>, i: seq<Record>, j: seq<Record>, f: seq<Record>, g: seq<Record>, k: seq<Record>)
    requires AddsSame(h, i, f, g) && AddsSame(i, j, g, k)
    ensures AddsSame(h, j, f, k)
  {
    assert j[|h|..] == i[|h|..] + j[|i|..];
    assert j[..|h|] == i[..|h|];
  }

  /** The files that are not appended to, and where the reader is. */
  ghost predicate SameBehind(s: Stages, n: Stages) {
    && n.reading == s.reading && n.readPos == s.readPos && n.isReading == s.isReading && n.flushing == s.flushing
    && n.cleanup == s.cleanup && n.syncing == s.syncing
  }

  lemma EndedAdds(s: Stages, r: Record, bytes: nat, h: seq<Record>)
    ensures AddsSame(h, h + [r], RecordsIn(s.appending), RecordsIn(Ended(s, r, bytes).appending))
    ensures SameBehind(s, Ended(s, r, bytes)) && Ended(s, r, bytes).nextRecordId == s.nextRecordId + 1
  {
    hide Ended, AddsSame;
    EndedFields(s, r, bytes);
    AddsNone(h, RecordsIn(s.appending));
    AddsMore(h, h, RecordsIn(s.appending), RecordsIn(s.appending), r);
  }

  lemma NewFits(base: map<Key, Value>)
    ensures QueueFits(map[], Idle, [], 1, base, base)
  {
  }

  lemma NewLogFits(s: Stages, p: Past, tables: Tables, last: nat, syncData: bool)
    requires s.All() == [] && s.Pending() == [] && s.nextRecordId == p.first
    requires p.history == [] && p.flushed == 0 && p.missed == map[] && p.start == tables
    ensures LogFits(s, p, tables, last, syncData) && p.Newest() == tables
  {
  }

  /** All that is left of the log is a file that was never read. */
  ghost predicate ShutDown(s: Stages) {
    s.appending.None? && s.reading.None? && s.cleanup == [] && s.pool == []
  }

  lemma PendingFacts(s: Stages, sync: bool)
    requires s.Valid(sync)
    ensures s.overlays == OverlayOf(s.Pending()) && Consecutive(s.Pending(), s.nextRecordId)
  {
    hide Flat, IdsOf, AllDistinct, OverlayOf, InOrder, Total, AllEmpty, AllSynced, AllFilled, Consecutive;
    PendingIds(s);
  }

  lemma QueueEmpty(o: C.CommitOverlay, last: nat, base: map<Key, Value>, committed: map<Key, Value>)
    requires QueueFits(o, Idle, [], last, base, committed)
    ensures committed == base
  {
  }

  /** Nothing is being appended to once a file of any size has been closed. */
  lemma NothingAppending(s: Stages, sync: bool)
    requires s.Valid(sync)
    ensures Synced(Rotated(s, 0), sync).appending.None?
  {
    hide Flat, IdsOf, AllDistinct, OverlayOf, InOrder, Total, Consecutive;
  }

  /** A record planned for a commit: it is fresh, and as readers see it carries out the commit's changes. */
  ghost predicate Carries(lookup: Reader, t: Tables, c: C.Commit, r: Record) {
    Fresh(t, r) && lookup(StateOf(Enact(t, r))) == UpdateAll(lookup(StateOf(t)), c.changes)
  }

  datatype Planned = Planned(record: Record, bytes: nat)

  /** The records the columns plan for these commits, each on what the ones before it leave. */
  ghost predicate Plans(lookup: Reader, t: Tables, cs: seq<C.Commit>, ps: seq<Planned>, next: nat)
    decreases |cs|
  {
    |ps| == |cs| &&
    (cs == [] || (ps[0].record.id == next && ps[0].bytes > 0 && Carries(lookup, t, cs[0], ps[0].record) &&
                  Plans(lookup, Enact(t, ps[0].record), cs[1..], ps[1..], next + 1)))
  }

  /** Only the reading position, the overlay and the reading state differ. */
  ghost predicate SameFiles(s: Stages, n: Stages) {
    n == s.(readPos := n.readPos, isReading := n.isReading, overlays := n.overlays)
  }

  ghost function PartOf(r: Record, done: set<Cell>): map<Cell, Data> {
    map c | c in done && r.Writes(c) :: r.DataAt(c)
  }

  /** The cells of `done` are written, and what is pending still leads to the same state. */
  ghost predicate Underway(was: Tables, t: Tables, done: set<Cell>, r: Record, rest: seq<Record>) {
    && t == was + PartOf(r, done)
    && Chained(was, [r] + rest)
    && Chained(t, [r] + rest) && EnactAll(t, [r] + rest) == EnactAll(was, [r] + rest)
  }

  lemma UnderwayStart(t: Tables, r: Record, rest: seq<Record>)
    requires Chained(t, [r] + rest)
    ensures Underway(t, t, {}, r, rest)
  {
    hide Chained, EnactAll;
    assert t == t + PartOf(r, {});
  }

  lemma UnderwayStep(was: Tables, t: Tables, done: set<Cell>, r: Record, rest: seq<Record>, c: Cell)
    requires Underway(was, t, done, r, rest) && r.Writes(c)
    ensures Underway(was, t[c := r.DataAt(c)], done + {c}, r, rest)
  {
    hide Chained, EnactAll, Record.Writes, Record.DataAt;
    var now := done + {c};
    assert t[c := r.DataAt(c)] == was + PartOf(r, now);
    EnactPart(was, PartOf(r, now), r, rest);
  }

  /** However much of the record is written, a reader gets the same. */
  lemma UnderwaySame(was: Tables, t: Tables, d: set<Cell>, u: Tables, e: set<Cell>, r: Record, rest: seq<Record>,
                     lookup: Reader)
    requires Underway(was, t, d, r, rest) && Underway(was, u, e, r, rest) && Respects(lookup)
    ensures lookup(ViewOf(t, OverlayOf([r] + rest))) == lookup(ViewOf(u, OverlayOf([r] + rest)))
  {
    hide Chained, EnactAll, ViewOf, StateOf, Respects, OverlayOf;
    LookupIsNewest(lookup, t, [r] + rest);
    LookupIsNewest(lookup, u, [r] + rest);
  }

  lemma UnderwayEnd(was: Tables, t: Tables, done: set<Cell>, r: Record, rest: seq<Record>)
    requires Underway(was, t, done, r, rest)
    requires (forall s :: s in r.slots ==> Slot(s) in done) && forall p :: p in r.pages ==> PageIn(done, r, p)
    ensures t == Enact(was, r)
  {
    hide Chained, EnactAll;
    forall c | r.Writes(c)
      ensures c in done
    {
      assert c.Item? ==> PageIn(done, r, c.page);
    }
    assert PartOf(r, done) == WritesOf(r);
  }

  ghost predicate PageIn(done: set<Cell>, r: Record, p: PageId)
    requires p in r.pages
  {
    forall i :: i in r.pages[p].mask ==> Item(p, i) in done
  }

  lemma PagesValid(was: Tables, t: Tables, done: set<Cell>, r: Record, rest: seq<Record>)
    requires Underway(was, t, done, r, rest)
    ensures r.Valid()
  {
    ChainedCons(was, r, rest);
  }

  lemma CleanedCounts(s: Stages, count: nat, sync: bool)
    requires s.Valid(sync) && count <= |s.cleanup|
    ensures |Cleaned(s, count).Pending()| <= |Cleaned(s, count).All()|
    ensures Cleaned(s, count).nextRecordId == s.nextRecordId
  {
    hide Flat, IdsOf, AllDistinct, OverlayOf, InOrder, Total, AllEmpty, AllSynced, Pooled, Trimmed;
    CleanedValid(s, count, sync);
    PendingIds(Cleaned(s, count));
  }
}
