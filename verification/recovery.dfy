/** A crash at any point, and the replay of the log files that survive it. */
module Recovery {
  import opened Keys
  import opened Records
  import opened LogStages
  import opened Databases
  import C = Commits

  /** How many bytes of a record make its id readable: the kind and the id. */
  const RECORD_HEADER: nat := 9

  /**
   * What a crash leaves of a log file: some of its first records whole, then `tail` bytes of the next one. `first` is
   * the id of the file's first record, which can be read unless fewer than nine bytes are left.
   */
  datatype FileImage = FileImage(whole: seq<Record>, tail: nat, first: nat) {
    predicate Empty() {
      whole == [] && tail == 0
    }

    /** Too short to tell the id of its first record; opening the database fails on such a file. */
    predicate Stub() {
      whole == [] && 0 < tail < RECORD_HEADER
    }
  }

  ghost predicate Survives(f: LogFile, im: FileImage) {
    && f.records != [] && im.first == f.records[0].id
    && im.whole <= f.records
    && (im.tail > 0 ==> |im.whole| < |f.records|)
    && (f.synced ==> im.whole == f.records)
  }

  ghost predicate AllSurvive(fs: seq<LogFile>, ims: seq<FileImage>) {
    |ims| == |fs| && forall i :: 0 <= i < |fs| ==> Survives(fs[i], ims[i])
  }

  /** How many of the given records carry the ids from `next` on. */
  function RunLength(rs: seq<Record>, next: nat): (n: nat)
    ensures n <= |rs|
  {
    if rs == [] || rs[0].id != next then 0 else 1 + RunLength(rs[1..], next + 1)
  }

  /** The records replayed from files in the order of their first ids, up to the first one torn or out of sequence. */
  function Replayed(ims: seq<FileImage>, next: nat): seq<Record> {
    if ims == [] then []
    else
      var n := RunLength(ims[0].whole, next);
      if n < |ims[0].whole| || ims[0].tail >= RECORD_HEADER then ims[0].whole[..n]
      else ims[0].whole + Replayed(ims[1..], next + n)
  }

  function NonEmpty(ims: seq<FileImage>): seq<FileImage> {
    if ims == [] then [] else (if ims[0].Empty() then [] else [ims[0]]) + NonEmpty(ims[1..])
  }

  /** What opening the database replays; nothing if it cannot be opened. */
  function Reopened(ims: seq<FileImage>): Option<seq<Record>> {
    if exists i :: 0 <= i < |ims| && ims[i].Stub() then None
    else
      var files := NonEmpty(ims);
      Some(if files == [] then [] else Replayed(files, files[0].first))
  }

  /**
   * Opens the files a crash has left and replays them, one record at a time; `enacted` is the id of the last record
   * taken as enacted, which before any is replayed is the one before the first that is found.
   */
  method ReplayAllLogs(ims: seq<FileImage>) returns (r: Option<seq<Record>>, enacted: int)
    ensures r == Reopened(ims)
    ensures r.Some? ==> enacted == if NonEmpty(ims) == [] then 1 else NonEmpty(ims)[0].first - 1 + |r.value|
    ensures r.Some? && r.value != [] ==> enacted == r.value[|r.value| - 1].id
  {
    hide Replayed, NonEmpty;
    var found := OpenFiles(ims);
    match found {
      case None => return None, 1;
      case Some(files) =>
        if files == [] {
          return Some([]), 1;
        }
        var done := ReplayFiles(files, files[0].first);
        ReplayedIds(files, files[0].first);
        return Some(done), files[0].first - 1 + |done|;
    }
  }

  /** What is replayed has consecutive ids. */
  lemma {:induction false} ReplayedIds(files: seq<FileImage>, next: nat)
    ensures forall i :: 0 <= i < |Replayed(files, next)| ==> Replayed(files, next)[i].id == next + i
  {
    if files != [] {
      RunIds(files[0].whole, next);
      ReplayedIds(files[1..], next + RunLength(files[0].whole, next));
    }
  }

  lemma {:induction false} RunIds(rs: seq<Record>, next: nat)
    ensures forall i :: 0 <= i < RunLength(rs, next) ==> rs[i].id == next + i
    ensures RunLength(rs, next) < |rs| ==> rs[RunLength(rs, next)].id != next + RunLength(rs, next)
  {
    if rs != [] && rs[0].id == next {
      RunIds(rs[1..], next + 1);
      assert forall i :: 0 < i < |rs| ==> rs[i] == rs[1..][i - 1];
    }
  }

  /** Drops files without contents; fails on one too short to hold a record id. */
  method OpenFiles(ims: seq<FileImage>) returns (found: Option<seq<FileImage>>)
    ensures found.None? <==> exists i :: 0 <= i < |ims| && ims[i].Stub()
    ensures found.Some? ==> found.value == NonEmpty(ims)
  {
    hide NonEmpty;
    var files, i := [], 0;
    assert ims[0..] == ims;
    while i < |ims|
      invariant i <= |ims| && NonEmpty(ims) == files + NonEmpty(ims[i..])
      invariant forall j :: 0 <= j < i ==> !ims[j].Stub()
    {
      if ims[i].Stub() {
        return None;
      }
      NonEmptyFrom(ims, i);
      if !ims[i].Empty() {
        files := files + [ims[i]];
      }
      i := i + 1;
    }
    assert ims[i..] == [];
    NonEmptyNone();
    found := Some(files);
  }

  lemma NonEmptyFrom(ims: seq<FileImage>, i: nat)
    requires i < |ims|
    ensures NonEmpty(ims[i..]) == (if ims[i].Empty() then [] else [ims[i]]) + NonEmpty(ims[i + 1..])
  {
    assert ims[i..][1..] == ims[i + 1..];
  }

  lemma NonEmptyNone()
    ensures NonEmpty([]) == []
  {
  }

  method ReplayFiles(files: seq<FileImage>, first: nat) returns (done: seq<Record>)
    ensures done == Replayed(files, first)
  {
    hide Replayed, RunLength;
    var i, next: nat := 0, first;
    done := [];
    assert files[0..] == files;
    while i < |files|
      invariant i <= |files| && Replayed(files, first) == done + Replayed(files[i..], next)
    {
      var n := ReplayFile(files[i], next);
      ReplayedTorn(files[i], files[i + 1..], next);
      assert files[i..] == [files[i]] + files[i + 1..];
      done := done + files[i].whole[..n];
      if n < |files[i].whole| || files[i].tail >= RECORD_HEADER {
        return;
      }
      next, i := next + n, i + 1;
    }
    assert files[i..] == [];
    ReplayedNone(next);
  }

  /** Reads one file: how many of its records are whole and in sequence. */
  method ReplayFile(im: FileImage, next: nat) returns (n: nat)
    ensures n == RunLength(im.whole, next)
  {
    n := 0;
    while n < |im.whole| && im.whole[n].id == next + n
      invariant n <= |im.whole| && RunLength(im.whole, next) == n + RunLength(im.whole[n..], next + n)
    {
      assert im.whole[n..][1..] == im.whole[n + 1..];
      n := n + 1;
    }
  }

  /** The file is read to its end: all its records are in sequence, and no more than a few bytes follow them. */
  ghost predicate ReadThrough(im: FileImage, next: nat) {
    im.tail < 9 && forall i :: 0 <= i < |im.whole| ==> im.whole[i].id == next + i
  }

  /**
   * What is replayed of any files, one by one: of a file that is read through all, and then the others go on from
   * there; of any other the records in sequence, and of the files after it nothing.
   */
  lemma ReplayStops(im: FileImage, rest: seq<FileImage>, next: nat) returns (n: nat)
    ensures ReadThrough(im, next) ==>
      Replayed([im] + rest, next) == im.whole + Replayed(rest, next + |im.whole|)
    ensures !ReadThrough(im, next) ==> n <= |im.whole| && Replayed([im] + rest, next) == im.whole[..n]
    ensures !ReadThrough(im, next) ==> forall i :: 0 <= i < n ==> im.whole[i].id == next + i
    ensures !ReadThrough(im, next) && n < |im.whole| ==> im.whole[n].id != next + n
  {
    hide RunLength;
    n := RunLength(im.whole, next);
    RunIds(im.whole, next);
    assert ([im] + rest)[1..] == rest;
    assert n == |im.whole| ==> im.whole[..n] == im.whole;
  }

  lemma ReplayedTorn(im: FileImage, rest: seq<FileImage>, next: nat)
    ensures Replayed([im] + rest, next) ==
      var n := RunLength(im.whole, next);
      im.whole[..n] + (if n < |im.whole| || im.tail >= RECORD_HEADER then [] else Replayed(rest, next + n))
  {
    assert ([im] + rest)[1..] == rest;
    var n := RunLength(im.whole, next);
    assert im.whole[..n] + [] == im.whole[..n];
    assert n == |im.whole| ==> im.whole[..n] == im.whole;
  }

  /** How many records come before the first one lost. */
  ghost function Intact(fs: seq<LogFile>, ims: seq<FileImage>): nat
    requires |fs| == |ims|
  {
    if fs == [] then 0
    else if |ims[0].whole| == |fs[0].records| then |ims[0].whole| + Intact(fs[1..], ims[1..])
    else |ims[0].whole|
  }

  ghost function Joined(fs: seq<LogFile>): seq<Record> {
    if fs == [] then [] else fs[0].records + Joined(fs[1..])
  }

  /** Ids from `next` on, file after file. */
  ghost predicate Numbered(fs: seq<LogFile>, next: nat) {
    fs == [] || ((forall i :: 0 <= i < |fs[0].records| ==> fs[0].records[i].id == next + i) &&
                 Numbered(fs[1..], next + |fs[0].records|))
  }

  lemma {:induction false} RunWhole(rs: seq<Record>, next: nat)
    requires forall i :: 0 <= i < |rs| ==> rs[i].id == next + i
    ensures RunLength(rs, next) == |rs|
  {
    if rs != [] {
      assert forall i :: 0 <= i < |rs[1..]| ==> rs[1..][i] == rs[i + 1];
      RunWhole(rs[1..], next + 1);
    }
  }

  /** Nothing is replayed while a record of an earlier id is missing. */
  lemma {:induction false} NothingAfterGap(fs: seq<LogFile>, ims: seq<FileImage>, next: nat, want: nat)
    requires AllSurvive(fs, ims) && Numbered(fs, next) && want < next
    requires forall i :: 0 <= i < |ims| ==> !ims[i].Stub()
    ensures Replayed(NonEmpty(ims), want) == []
  {
    if ims != [] {
      assert Survives(fs[0], ims[0]);
      if ims[0].Empty() {
        NothingAfterGap(fs[1..], ims[1..], next + |fs[0].records|, want);
        assert NonEmpty(ims) == NonEmpty(ims[1..]);
      } else {
        assert !ims[0].Stub();
        assert ims[0].whole != [] ==> ims[0].whole[0] == fs[0].records[0];
      }
    }
  }

  /** With ids wanted from the first record of the log on, what is replayed is the log up to the first loss. */
  lemma {:induction false} ReplayedIsIntact(fs: seq<LogFile>, ims: seq<FileImage>, next: nat)
    requires AllSurvive(fs, ims) && Numbered(fs, next)
    requires forall i :: 0 <= i < |ims| ==> !ims[i].Stub()
    ensures Intact(fs, ims) <= |Joined(fs)| && Replayed(NonEmpty(ims), next) == Joined(fs)[..Intact(fs, ims)]
  {
    hide Replayed, NonEmpty, Joined;
    if ims == [] {
      ReplayedNone(next);
      NonEmptyNone();
      JoinedNone();
    } else {
      assert Survives(fs[0], ims[0]);
      var w, rs, later := ims[0].whole, fs[0].records, Joined(fs[1..]);
      JoinedFirst(fs);
      NonEmptyFrom(ims, 0);
      assert ims[0..] == ims;
      RunWhole(w, next);
      if |w| == |rs| {
        ReplayedIsIntact(fs[1..], ims[1..], next + |rs|);
        ReplayedStep(ims[0], NonEmpty(ims[1..]), next);
        Prepended(rs, later, Intact(fs[1..], ims[1..]));
      } else {
        NothingAfterGap(fs[1..], ims[1..], next + |rs|, next + |w|);
        assert w == rs[..|w|] == (rs + later)[..|w|];
        if ims[0].Empty() {
          assert [] + NonEmpty(ims[1..]) == NonEmpty(ims[1..]);
        } else {
          ReplayedStep(ims[0], NonEmpty(ims[1..]), next);
        }
      }
    }
  }

  lemma Prepended(a: seq<Record>, b: seq<Record>, n: nat)
    requires n <= |b|
    ensures a + b[..n] == (a + b)[..|a| + n]
  {
  }

  lemma ReplayedNone(next: nat)
    ensures Replayed([], next) == []
  {
  }

  lemma ReplayedStep(im: FileImage, rest: seq<FileImage>, next: nat)
    requires RunLength(im.whole, next) == |im.whole|
    ensures Replayed([im] + rest, next) ==
      im.whole + (if im.tail >= RECORD_HEADER then [] else Replayed(rest, next + |im.whole|))
  {
    assert ([im] + rest)[1..] == rest;
    assert im.whole[..|im.whole|] == im.whole == im.whole + [];
  }

  /** The first file of the log is gone without a trace. */
  predicate FrontLost(ims: seq<FileImage>) {
    ims != [] && ims[0].Empty()
  }

  /** A record would be replayed first that is not the first of the log. */
  predicate StartsLate(ims: seq<FileImage>) {
    FrontLost(ims) && var files := NonEmpty(ims); files != [] && files[0].whole != []
  }

  /**
   * What is replayed is a prefix of the log exactly when replay does not start late; it then includes every record of
   * the files synced before the first loss.
   */
  lemma ReopenedIsPrefix(fs: seq<LogFile>, ims: seq<FileImage>, next: nat)
    requires AllSurvive(fs, ims) && Numbered(fs, next) && Reopened(ims).Some?
    ensures !StartsLate(ims) <==> Reopened(ims).value <= Joined(fs)
    ensures !StartsLate(ims) ==>
      Intact(fs, ims) <= |Joined(fs)| && Reopened(ims).value == Joined(fs)[..Intact(fs, ims)]
  {
    ReplayedIsIntact(fs, ims, next);
    if ims != [] {
      assert Survives(fs[0], ims[0]);
      if ims[0].Empty() {
        LateStart(fs, ims, next);
      }
    }
  }

  /** Behind a lost first file, replay starts from the next one found, whose records the prefix does not start with. */
  lemma LateStart(fs: seq<LogFile>, ims: seq<FileImage>, next: nat)
    requires AllSurvive(fs, ims) && Numbered(fs, next) && Reopened(ims).Some? && FrontLost(ims)
    ensures Intact(fs, ims) == 0
    ensures if StartsLate(ims) then !(Reopened(ims).value <= Joined(fs)) else Reopened(ims).value == []
  {
    hide NonEmpty, Replayed, Joined, Intact, RunLength;
    LostFront(fs, ims, next);
    var files := NonEmpty(ims);
    if files != [] {
      var i := FirstFound(fs[1..], ims[1..], next + |fs[0].records|);
      assert !ims[i + 1].Stub() && Survives(fs[i + 1], ims[i + 1]);
      if files[0].whole != [] {
        FirstReplayed(files);
      } else {
        TornFirst(files);
      }
    }
  }

  lemma LostFront(fs: seq<LogFile>, ims: seq<FileImage>, next: nat)
    requires AllSurvive(fs, ims) && Numbered(fs, next) && FrontLost(ims)
    ensures NonEmpty(ims) == NonEmpty(ims[1..]) && Intact(fs, ims) == 0
    ensures AllSurvive(fs[1..], ims[1..]) && Numbered(fs[1..], next + |fs[0].records|) && |fs[0].records| > 0
    ensures Joined(fs) != [] && Joined(fs)[0].id == next
  {
    assert Survives(fs[0], ims[0]);
  }

  lemma FirstReplayed(files: seq<FileImage>)
    requires files != [] && files[0].whole != [] && files[0].whole[0].id == files[0].first
    ensures var r := Replayed(files, files[0].first); r != [] && r[0] == files[0].whole[0]
  {
    hide NonEmpty;
  }

  lemma TornFirst(files: seq<FileImage>)
    requires files != [] && files[0].whole == [] && files[0].tail >= RECORD_HEADER
    ensures Replayed(files, files[0].first) == []
  {
    hide NonEmpty;
  }

  lemma {:induction false} FirstFound(fs: seq<LogFile>, ims: seq<FileImage>, next: nat) returns (i: nat)
    requires AllSurvive(fs, ims) && Numbered(fs, next) && NonEmpty(ims) != []
    ensures i < |ims| && NonEmpty(ims)[0] == ims[i] && ims[i].first >= next && !ims[i].Empty()
  {
    assert Survives(fs[0], ims[0]);
    if ims[0].Empty() {
      assert NonEmpty(ims) == NonEmpty(ims[1..]);
      i := FirstFound(fs[1..], ims[1..], next + |fs[0].records|);
      i := i + 1;
    } else {
      i := 0;
    }
  }

  // The tables.

  ghost predicate WrittenIn(history: seq<Record>, from: nat, to: nat, c: Cell)
    requires from <= to <= |history|
  {
    exists i :: from <= i < to && history[i].Writes(c)
  }

  /**
   * The cell is as it was when its table was last flushed, unless some record enacted since then, wholly or in part,
   * writes it: then it can hold anything, old or new data or a torn write.
   */
  ghost predicate TornAt(image: Tables, p: Past, enacted: nat, c: Cell)
    requires p.FlushedAt(c) <= enacted <= |p.history|
  {
    || At(image, c) == At(EnactAll(p.start, p.history[..p.FlushedAt(c)]), c)
    || WrittenIn(p.history, p.FlushedAt(c), enacted, c)
  }

  /** What a crash can leave of the tables. */
  ghost predicate Torn(image: Tables, p: Past, enacted: nat)
    requires enacted <= |p.history| && forall c: Cell :: p.FlushedAt(c) <= enacted
  {
    forall c :: TornAt(image, p, enacted, c)
  }

  /** No record that has left the log, of which `first` have, wrote the cell after its table was last flushed. */
  ghost predicate Covered(p: Past, first: nat, c: Cell)
    requires first <= |p.history|
  {
    p.FlushedAt(c) >= first || !WrittenIn(p.history, p.FlushedAt(c), first, c)
  }

  /** After these records have been replayed over the image, the cell is as after the first `last` records. */
  ghost predicate RecoveredAt(image: Tables, replayed: seq<Record>, p: Past, last: nat, c: Cell)
    requires last <= |p.history|
  {
    At(EnactAll(image, replayed), c) == At(EnactAll(p.start, p.history[..last]), c)
  }

  /**
   * Replaying the log from record `first` on recovers a cell exactly if a replayed record writes it or it already is as
   * it should be.
   */
  lemma RedoExactly(image: Tables, p: Past, first: nat, last: nat, c: Cell)
    requires first <= last <= |p.history|
    ensures RecoveredAt(image, p.history[first..last], p, last, c) <==>
      WrittenIn(p.history, first, last, c) || At(image, c) == At(EnactAll(p.start, p.history[..last]), c)
  {
    hide EnactAll, Enact, At;
    var redo, base := p.history[first..last], EnactAll(p.start, p.history[..first]);
    assert p.history[..first] + redo == p.history[..last];
    EnactAllJoin(p.start, p.history[..first], redo);
    if i :| first <= i < last && p.history[i].Writes(c) {
      assert redo[i - first].Writes(c);
      LastWrite(image, base, redo, c);
    } else {
      forall i | 0 <= i < |redo|
        ensures !redo[i].Writes(c)
      {
        assert redo[i] == p.history[first + i];
      }
      Unwritten(image, redo, c);
    }
  }

  /** Replaying over a torn cell, records already enacted included, gives the state after the last of them. */
  lemma RedoAt(image: Tables, p: Past, first: nat, enacted: nat, last: nat, c: Cell)
    requires first <= enacted <= last <= |p.history| && p.FlushedAt(c) <= enacted
    requires TornAt(image, p, enacted, c) && Covered(p, first, c)
    ensures RecoveredAt(image, p.history[first..last], p, last, c)
  {
    hide EnactAll, Enact, At, RecoveredAt;
    RedoExactly(image, p, first, last, c);
    var f := p.FlushedAt(c);
    if !WrittenIn(p.history, first, last, c) {
      var more := p.history[f..last];
      assert p.history[..f] + more == p.history[..last];
      EnactAllJoin(p.start, p.history[..f], more);
      forall i | 0 <= i < |more|
        ensures !more[i].Writes(c)
      {
        assert more[i] == p.history[f + i];
      }
      Unwritten(EnactAll(p.start, p.history[..f]), more, c);
    }
  }

  // The whole database.

  /** The log files that hold records, oldest first. */
  ghost function FilesOf(s: Stages): seq<LogFile> {
    s.cleanup + FileIn(s.reading) + FileIn(s.flushing) + FileIn(s.appending)
  }

  ghost function FileIn(f: Option<LogFile>): seq<LogFile> {
    if f.Some? then [f.value] else []
  }

  lemma {:induction false} JoinedJoin(a: seq<LogFile>, b: seq<LogFile>)
    ensures Joined(a + b) == Joined(a) + Joined(b)
  {
    hide Joined;
    if a == [] {
      assert a + b == b;
      JoinedNone();
    } else {
      JoinedFirst(a);
      JoinedFirst(a + b);
      assert (a + b)[1..] == a[1..] + b;
      JoinedJoin(a[1..], b);
      Associate(a[0].records, Joined(a[1..]), Joined(b));
    }
  }

  lemma JoinedNone()
    ensures Joined([]) == []
  {
  }

  lemma JoinedFirst(fs: seq<LogFile>)
    requires fs != []
    ensures Joined(fs) == fs[0].records + Joined(fs[1..])
  {
  }

  lemma {:induction false} JoinedIsFlat(q: seq<LogFile>)
    ensures Joined(q) == Flat(q)
  {
    if q != [] {
      var n := |q| - 1;
      JoinedIsFlat(q[..n]);
      JoinedJoin(q[..n], [q[n]]);
      assert q[..n] + [q[n]] == q;
      JoinedOne(q[n]);
    }
  }

  lemma JoinedOne(f: LogFile)
    ensures Joined([f]) == f.records
  {
    assert [f][1..] == [];
    assert Joined([]) == [];
  }

  lemma JoinedIn(f: Option<LogFile>)
    ensures Joined(FileIn(f)) == RecordsIn(f)
  {
    if f.Some? {
      JoinedOne(f.value);
    }
  }

  lemma FilesHoldAll(s: Stages)
    ensures Joined(FilesOf(s)) == s.All()
  {
    hide Joined, Flat;
    var a, b, c, d := s.cleanup, FileIn(s.reading), FileIn(s.flushing), FileIn(s.appending);
    JoinedIsFlat(a);
    JoinedIn(s.reading);
    JoinedIn(s.flushing);
    JoinedIn(s.appending);
    JoinedJoin(a + b + c, d);
    JoinedJoin(a + b, c);
    JoinedJoin(a, b);
  }

  lemma {:induction false} NumberedFrom(fs: seq<LogFile>, next: nat)
    requires IdsFrom(Joined(fs), next)
    ensures Numbered(fs, next)
  {
    hide Joined;
    if fs != [] {
      JoinedFirst(fs);
      IdsSplit(fs[0].records, Joined(fs[1..]), next);
      NumberedFrom(fs[1..], next + |fs[0].records|);
    }
  }

  ghost predicate IdsFrom(rs: seq<Record>, next: nat) {
    forall i :: 0 <= i < |rs| ==> rs[i].id == next + i
  }

  lemma IdsSplit(a: seq<Record>, b: seq<Record>, next: nat)
    requires IdsFrom(a + b, next)
    ensures IdsFrom(a, next) && IdsFrom(b, next + |a|)
  {
    assert forall i :: 0 <= i < |a| ==> (a + b)[i] == a[i];
    assert forall i :: 0 <= i < |b| ==> (a + b)[|a| + i] == b[i];
  }

  /** How many of the oldest records are on disk for certain. */
  ghost function SyncedCount(fs: seq<LogFile>): nat {
    if fs == [] || !fs[0].synced then 0 else |fs[0].records| + SyncedCount(fs[1..])
  }

  lemma {:induction false} SyncedSurvive(fs: seq<LogFile>, ims: seq<FileImage>)
    requires AllSurvive(fs, ims)
    ensures SyncedCount(fs) <= Intact(fs, ims)
  {
    if fs != [] {
      assert Survives(fs[0], ims[0]);
      SyncedSurvive(fs[1..], ims[1..]);
    }
  }

  /** Everything enacted, or being enacted, is in synced files. */
  lemma ReadIsSynced(s: Stages)
    requires s.Valid(true)
    ensures SyncedCount(FilesOf(s)) + |RecordsIn(s.flushing)| + |RecordsIn(s.appending)| >= |s.All()|
  {
    hide Joined, Flat, IdsOf, AllDistinct, OverlayOf, Total, Consecutive, SyncedCount, FileIn, Stages.Pending;
    var a, b := s.cleanup, FileIn(s.reading);
    BothSynced(s);
    SyncedFront(a + b, FileIn(s.flushing) + FileIn(s.appending));
    Regrouped(a + b, FileIn(s.flushing), FileIn(s.appending));
    JoinedJoin(a, b);
    JoinedIsFlat(a);
    JoinedIn(s.reading);
  }

  lemma BothSynced(s: Stages)
    requires s.Staged(true)
    ensures forall f :: f in s.cleanup + FileIn(s.reading) ==> f.synced
  {
  }

  lemma Regrouped(a: seq<LogFile>, b: seq<LogFile>, c: seq<LogFile>)
    ensures a + b + c == a + (b + c)
  {
  }

  lemma {:induction false} SyncedFront(a: seq<LogFile>, b: seq<LogFile>)
    requires forall f :: f in a ==> f.synced
    ensures SyncedCount(a + b) >= |Joined(a)|
  {
    if a != [] {
      SyncedFront(a[1..], b);
      assert (a + b)[1..] == a[1..] + b;
    }
  }

  // Which states before a crash allow the two ways out.

  ghost predicate Filled(fs: seq<LogFile>) {
    forall i :: 0 <= i < |fs| ==> fs[i].records != []
  }

  ghost predicate OpensLate(fs: seq<LogFile>, ims: seq<FileImage>) {
    AllSurvive(fs, ims) && Reopened(ims).Some? && StartsLate(ims)
  }

  ghost predicate FailsToOpen(fs: seq<LogFile>, ims: seq<FileImage>) {
    AllSurvive(fs, ims) && Reopened(ims).None?
  }

  /** The files whole, but for one of which only `tail` bytes are left. */
  ghost function AllBut(fs: seq<LogFile>, at: nat, tail: nat): (ims: seq<FileImage>)
    requires Filled(fs)
    ensures |ims| == |fs|
    ensures forall i :: 0 <= i < |fs| ==>
      ims[i] == FileImage(if i == at then [] else fs[i].records, if i == at then tail else 0, fs[i].records[0].id)
  {
    seq(|fs|, i requires 0 <= i < |fs| =>
      FileImage(if i == at then [] else fs[i].records, if i == at then tail else 0, fs[i].records[0].id))
  }

  /** Some crash makes replay start late exactly when the oldest file is not synced and another one follows it. */
  lemma LateStartPossible(fs: seq<LogFile>)
    requires Filled(fs)
    ensures (exists ims :: OpensLate(fs, ims)) <==> |fs| > 1 && !fs[0].synced
  {
    hide Replayed, RunLength, NonEmpty, OpensLate;
    if ims: seq<FileImage> :| OpensLate(fs, ims) {
      LateFiles(fs, ims);
    }
    if |fs| > 1 && !fs[0].synced {
      WithoutFirst(fs);
    }
  }

  lemma LateFiles(fs: seq<LogFile>, ims: seq<FileImage>)
    requires Filled(fs) && OpensLate(fs, ims)
    ensures |fs| > 1 && !fs[0].synced
  {
    hide Replayed, NonEmpty, Reopened;
    assert Survives(fs[0], ims[0]);
    NonEmptyFrom(ims, 0);
    NonEmptyNone();
    assert ims[0..] == ims;
    assert ims[1..] != [];
  }

  lemma WithoutFirst(fs: seq<LogFile>)
    requires Filled(fs) && |fs| > 1 && !fs[0].synced
    ensures OpensLate(fs, AllBut(fs, 0, 0))
  {
    hide Replayed, NonEmpty;
    var ims := AllBut(fs, 0, 0);
    NonEmptyFrom(ims, 0);
    NonEmptyFrom(ims, 1);
    assert ims[0..] == ims;
  }

  /** Some crash leaves files that cannot be opened exactly when some file is not synced. */
  lemma FailurePossible(fs: seq<LogFile>)
    requires Filled(fs)
    ensures (exists ims :: FailsToOpen(fs, ims)) <==> exists i :: 0 <= i < |fs| && !fs[i].synced
  {
    hide Replayed, NonEmpty;
    if ims: seq<FileImage> :| FailsToOpen(fs, ims) {
      var i :| 0 <= i < |ims| && ims[i].Stub();
      assert Survives(fs[i], ims[i]);
    }
    if i :| 0 <= i < |fs| && !fs[i].synced {
      var ims := AllBut(fs, i, RECORD_HEADER - 1);
      assert ims[i].Stub();
      assert FailsToOpen(fs, ims);
    }
  }

  lemma FilesFilled(s: Stages)
    requires s.Staged(true)
    ensures Filled(FilesOf(s))
    ensures forall i :: 0 <= i < |s.cleanup + FileIn(s.reading)| ==> FilesOf(s)[i].synced
  {
    BothSynced(s);
    var front := s.cleanup + FileIn(s.reading);
    forall i | 0 <= i < |front|
      ensures FilesOf(s)[i].synced
    {
      assert FilesOf(s)[i] == front[i];
      assert front[i] in front;
    }
    forall f | f in FilesOf(s)
      ensures f.records != []
    {
    }
  }

  /**
   * Of the pipeline: replay can start late only while the oldest file is the one being synced and the next one is open
   * already, and opening can fail only while a file is being synced or appended to.
   */
  lemma WhenRecoveryFails(s: Stages)
    requires s.Valid(true)
    ensures (exists ims :: OpensLate(FilesOf(s), ims)) <==>
      s.cleanup == [] && s.reading.None? && s.flushing.Some? && !s.flushing.value.synced && s.appending.Some?
    ensures (exists ims :: FailsToOpen(FilesOf(s), ims)) <==>
      s.appending.Some? || (s.flushing.Some? && !s.flushing.value.synced)
  {
    hide Stages.Staged, Stages.All, Stages.Pending, AllDistinct, Consecutive, OverlayOf, OpensLate, FailsToOpen;
    hide FilesOf;
    FilesFilled(s);
    LateStartPossible(FilesOf(s));
    FailurePossible(FilesOf(s));
    FirstUnsynced(s);
    SomeUnsynced(s);
  }

  lemma FirstUnsynced(s: Stages)
    requires s.Staged(true)
    ensures |FilesOf(s)| > 1 && !FilesOf(s)[0].synced <==>
      s.cleanup == [] && s.reading.None? && s.flushing.Some? && !s.flushing.value.synced && s.appending.Some?
  {
    hide Filled;
    FilesFilled(s);
  }

  lemma SomeUnsynced(s: Stages)
    requires s.Staged(true)
    ensures (exists i :: 0 <= i < |FilesOf(s)| && !FilesOf(s)[i].synced) <==>
      s.appending.Some? || (s.flushing.Some? && !s.flushing.value.synced)
  {
    hide Filled;
    var fs, n := FilesOf(s), |s.cleanup + FileIn(s.reading)|;
    FilesFilled(s);
    assert s.flushing.Some? ==> fs[n] == s.flushing.value;
    assert s.appending.Some? ==> fs[|fs| - 1] == s.appending.value;
  }

  /**
   * With synced logs and synced data: after a crash in any state of the pipeline, with the tables torn in any way and
   * the unsynced files cut off anywhere, replay brings the tables to the state after some number of records, in id
   * order, that includes every record of the leading synced files, unless it starts late. That holds of every cell that
   * was not written, after its last flush, by a record that has left the log; any other cell is recovered exactly if a
   * replayed record writes it or it is right already.
   */
  lemma CrashRecovery(s: Stages, p: Past, tables: Tables, enacted: nat, image: Tables,
                      ims: seq<FileImage>) returns (last: nat)
    requires s.Valid(true) && LogFits(s, p, tables, enacted, true)
    requires AllSurvive(FilesOf(s), ims) && Reopened(ims).Some? && !StartsLate(ims)
    requires TornTables(image, p, s)
    ensures Recovers(s, p, image, Reopened(ims).value, last)
  {
    hide Stages.Valid, Stages.All, Stages.Pending, RecordsIn, TornAt, EnactAll, At, Intact, SyncedCount, Chained;
    hide StartsLate, Torn;
    hide Reopened, FilesOf, Joined, Survives, RecoveredAt, WrittenIn, Covered;
    var fs, first := FilesOf(s), First(s, p);
    FilesHoldAll(s);
    IdsOfAll(s);
    NumberedFrom(fs, s.nextRecordId - |s.All()|);
    ReopenedIsPrefix(fs, ims, s.nextRecordId - |s.All()|);
    SyncedSurvive(fs, ims);
    ReadIsSynced(s);
    FlushedBegun(s, p);
    last := first + Intact(fs, ims);
    assert p.history[first..last] == s.All()[..Intact(fs, ims)];
    RedoAll(image, p, first, Begun(s, p), last);
  }

  /** Every covered cell is recovered, and it is known which others are. */
  lemma RedoAll(image: Tables, p: Past, first: nat, enacted: nat, last: nat)
    requires first <= enacted <= last <= |p.history| && (forall c: Cell :: p.FlushedAt(c) <= enacted)
    requires Torn(image, p, enacted)
    ensures forall c :: Covered(p, first, c) ==> RecoveredAt(image, p.history[first..last], p, last, c)
    ensures forall c :: RecoveredAt(image, p.history[first..last], p, last, c) <==>
      WrittenIn(p.history, first, last, c) || At(image, c) == At(EnactAll(p.start, p.history[..last]), c)
  {
    hide TornAt, EnactAll, At, RecoveredAt, WrittenIn, Covered;
    forall c | Covered(p, first, c) ensures RecoveredAt(image, p.history[first..last], p, last, c) {
      RedoAt(image, p, first, enacted, last, c);
    }
    forall c
      ensures RecoveredAt(image, p.history[first..last], p, last, c) <==>
        WrittenIn(p.history, first, last, c) || At(image, c) == At(EnactAll(p.start, p.history[..last]), c)
    {
      RedoExactly(image, p, first, last, c);
    }
  }

  /** What a crash in this state can leave of the tables. */
  ghost predicate TornTables(image: Tables, p: Past, s: Stages) {
    && 0 <= Begun(s, p) && (forall c: Cell :: p.FlushedAt(c) <= Begun(s, p))
    && Torn(image, p, Begun(s, p))
  }

  /** Replaying these records brings the tables to the state after the first `last` records. */
  ghost predicate Recovers(s: Stages, p: Past, image: Tables, replayed: seq<Record>, last: nat) {
    && 0 <= First(s, p) <= last <= |p.history| && Begun(s, p) <= last && First(s, p) + SyncedCount(FilesOf(s)) <= last
    && replayed == p.history[First(s, p)..last]
    && (forall c :: Covered(p, First(s, p), c) ==> RecoveredAt(image, replayed, p, last, c))
    && (forall c :: RecoveredAt(image, replayed, p, last, c) <==>
          WrittenIn(p.history, First(s, p), last, c) || At(image, c) == At(EnactAll(p.start, p.history[..last]), c))
  }

  /** The same of a database in any state its operations can bring it to. */
  lemma DbRecovery(db: Db, image: Tables, ims: seq<FileImage>) returns (last: nat)
    requires db.Valid() && db.syncData && db.log.sync
    requires AllSurvive(FilesOf(db.log.State()), ims) && Reopened(ims).Some? && !StartsLate(ims)
    requires TornTables(image, db.past, db.log.State())
    ensures Recovers(db.log.State(), db.past, image, Reopened(ims).value, last)
  {
    hide Stages.Valid, LogFits, QueueFits, TornTables, Recovers, Reopened, StartsLate, AllSurvive, FilesOf, Respects;
    last := CrashRecovery(db.log.State(), db.past, db.tables, db.lastEnacted, image, ims);
  }

  /**
   * What readers get of the tables recovered are the first `last` commits logged; the others are lost, and only they.
   */
  ghost predicate KeepsCommits(db: Db, recovered: Tables, last: nat)
    reads db, db.log
  {
    && last <= |db.carried|
    && db.lookup(StateOf(recovered)) == C.UpdateQueue(db.lookup(StateOf(db.past.start)), db.carried[..last])
    && db.committed ==
       C.UpdateQueue(db.lookup(StateOf(recovered)), db.carried[last..] + Unlogged(db.worker, db.commits))
  }

  /** The two views agree, entries of these index tables aside. */
  ghost predicate AlikeBut(f: View, g: View, tables: set<nat>) {
    forall c: Cell :: InRange(c) && !(c.Item? && c.page.table in tables) ==> f(c) == g(c)
  }

  /** Entries of these index tables do not matter to the reader. */
  ghost predicate Ignores(lookup: Reader, tables: set<nat>) {
    forall f, g :: AlikeBut(f, g, tables) ==> lookup(f) == lookup(g)
  }

  /** Where no flush has left out an index table, every reader will do. */
  lemma IgnoresNone(lookup: Reader)
    requires Respects(lookup)
    ensures Ignores(lookup, {})
  {
    forall f, g | AlikeBut(f, g, {})
      ensures lookup(f) == lookup(g)
    {
      assert Alike(f, g);
    }
  }

  /**
   * To a reader that ignores the index tables left out by some flush, a crash keeps commits whole: what can be read
   * after it is what a number of commits, the oldest and all those of synced log files, have made of the database.
   */
  lemma CommitsRecovered(db: Db, image: Tables, ims: seq<FileImage>) returns (last: nat)
    requires db.Valid() && db.syncData && db.log.sync && Ignores(db.lookup, db.past.missed.Keys)
    requires AllSurvive(FilesOf(db.log.State()), ims) && Reopened(ims).Some? && !StartsLate(ims)
    requires TornTables(image, db.past, db.log.State())
    ensures Recovers(db.log.State(), db.past, image, Reopened(ims).value, last)
    ensures SameBut(db.past, image, Reopened(ims).value, last)
    ensures KeepsCommits(db, EnactAll(image, Reopened(ims).value), last)
  {
    hide Stages.Valid, LogFits, QueueFits, CarriedBy, TornTables, Reopened, StartsLate, AllSurvive, FilesOf, Respects;
    hide KeepsCommits, Ignores, EnactAll, At, Covered, WrittenIn;
    last := DbRecovery(db, image, ims);
    CoveredBut(db.log.State(), db.past, db.tables, db.lastEnacted);
    var t, u := EnactAll(image, Reopened(ims).value), EnactAll(db.past.start, db.past.history[..last]);
    forall c: Cell | !(c.Item? && c.page.table in db.past.missed)
      ensures At(t, c) == At(u, c)
    {
      assert RecoveredAt(image, Reopened(ims).value, db.past, last, c);
    }
    AllRecovered(t, u, db.lookup, db.past.missed.Keys);
    PrefixKept(db, t, last);
  }

  /** The records still in the log are numbered on from the first one of the past. */
  lemma LoggedIds(s: Stages, p: Past, tables: Tables, enacted: nat, i: nat)
    requires s.Valid(true) && LogFits(s, p, tables, enacted, true) && First(s, p) <= i < |p.history|
    ensures p.history[i].id == p.first + i
  {
    hide Chained, EnactAll, Stages.All, Stages.Pending, Stages.Valid;
    IdsOfAll(s);
    assert p.history[i] == s.All()[i - First(s, p)];
  }

  /** The recovered tables are those after the first `last` records, entries of the tables left out aside. */
  ghost predicate SameBut(p: Past, image: Tables, replayed: seq<Record>, last: nat) {
    last <= |p.history| &&
    AlikeBut(StateOf(EnactAll(image, replayed)), StateOf(EnactAll(p.start, p.history[..last])), p.missed.Keys)
  }

  /** With synced data all cells are covered but those of the index tables left out. */
  lemma CoveredBut(s: Stages, p: Past, tables: Tables, enacted: nat)
    requires s.Valid(true) && LogFits(s, p, tables, enacted, true)
    ensures 0 <= First(s, p) <= |p.history| &&
      forall c: Cell :: !(c.Item? && c.page.table in p.missed) ==> Covered(p, First(s, p), c)
  {
    hide Chained, EnactAll, Stages.All, Stages.Pending, Stages.Valid;
  }

  lemma AllRecovered(t: Tables, u: Tables, lookup: Reader, tables: set<nat>)
    requires Ignores(lookup, tables) && forall c: Cell :: !(c.Item? && c.page.table in tables) ==> At(t, c) == At(u, c)
    ensures AlikeBut(StateOf(t), StateOf(u), tables) && lookup(StateOf(t)) == lookup(StateOf(u))
  {
    hide At;
    assert AlikeBut(StateOf(t), StateOf(u), tables);
  }

  lemma PrefixKept(db: Db, recovered: Tables, last: nat)
    requires db.Valid() && last <= |db.past.history|
    requires db.lookup(StateOf(recovered)) == db.lookup(StateOf(EnactAll(db.past.start, db.past.history[..last])))
    ensures KeepsCommits(db, recovered, last)
  {
    hide Stages.Valid, LogFits, EnactAll, Respects, StateOf, C.UpdateQueue, C.OverlayOf, Ascending;
    var h, cs := db.past.history, db.carried;
    assert CarriedUpTo(db.lookup, db.past.start, h, cs, last);
    assert CarriedUpTo(db.lookup, db.past.start, h, cs, |h|);
    assert h[..|h|] == h && cs[..|cs|] == cs && cs[..last] + cs[last..] == cs;
    var m := db.lookup(StateOf(db.past.start));
    C.UpdateQueueJoin(m, cs[..last], cs[last..]);
    C.UpdateQueueJoin(C.UpdateQueue(m, cs[..last]), cs[last..], Unlogged(db.worker, db.commits));
  }

  /** Nothing has been flushed that has not been handed to the reader. */
  lemma FlushedIsBegun(s: Stages, p: Past, tables: Tables, enacted: nat)
    requires s.Valid(true) && LogFits(s, p, tables, enacted, true)
    ensures 0 <= Begun(s, p) && forall c: Cell :: p.FlushedAt(c) <= Begun(s, p)
  {
    hide Chained, EnactAll, Ends, Stages.All;
    FlushedBegun(s, p);
  }

  lemma IdsOfAll(s: Stages)
    requires s.Valid(true)
    ensures |s.All()| < s.nextRecordId && IdsFrom(s.All(), s.nextRecordId - |s.All()|)
  {
  }

  lemma FlushedBegun(s: Stages, p: Past)
    requires s.Valid(true)
    ensures |p.history| - |s.Pending()| <= Begun(s, p)
  {
  }

  /** How many records have been handed to the reader: nothing of the others is in the tables. */
  ghost function Begun(s: Stages, p: Past): int {
    |p.history| - |RecordsIn(s.flushing)| - |RecordsIn(s.appending)|
  }

  /** How many records are no longer in the log. */
  ghost function First(s: Stages, p: Past): int {
    |p.history| - |s.All()|
  }

  // Shutting down.

  /** Nothing of the files is lost. */
  ghost predicate AllWhole(fs: seq<LogFile>, ims: seq<FileImage>) {
    |ims| == |fs| && forall i :: 0 <= i < |fs| ==>
      fs[i].records != [] && ims[i] == FileImage(fs[i].records, 0, fs[i].records[0].id)
  }

  /** Opened again after a shutdown, the database replays exactly what was not enacted and holds every commit. */
  lemma ShutdownReopens(db: Db, ims: seq<FileImage>)
    requires db.Valid() && ShutDown(db.log.State()) && db.worker.Idle? && db.commits == []
    requires AllWhole(FilesOf(db.log.State()), ims)
    ensures Reopened(ims) == Some(RecordsIn(db.log.flushing))
    ensures EnactAll(db.tables, Reopened(ims).value) == db.past.Newest()
    ensures db.lookup(StateOf(EnactAll(db.tables, Reopened(ims).value))) == db.committed
  {
    hide Stages.Valid, LogFits, QueueFits, EnactAll, StateOf, Respects, Reopened;
    var s := db.log.State();
    LogShows(s, db.past, db.tables, db.lastEnacted, db.syncData, db.log.sync, db.lookup);
    QueueEmpty(db.overlay, db.queueId + 1, db.lookup(StateOf(db.past.Newest())), db.committed);
    OneLeft(s, db.log.sync);
    if db.log.flushing.Some? {
      assert FilesOf(s) == [db.log.flushing.value];
      WholeReopens(db.log.flushing.value, ims[0], s.nextRecordId);
      assert ims == [ims[0]];
    } else {
      assert FilesOf(s) == [];
      NothingReopens();
    }
  }

  lemma OneLeft(s: Stages, sync: bool)
    requires s.Valid(sync) && ShutDown(s)
    ensures s.Pending() == RecordsIn(s.flushing) && Consecutive(RecordsIn(s.flushing), s.nextRecordId)
  {
    hide IdsOf, AllDistinct, OverlayOf, Total, Consecutive;
    assert s.All() == RecordsIn(s.flushing) == s.Pending();
  }

  lemma NothingReopens()
    ensures Reopened([]) == Some([])
  {
  }

  lemma WholeReopens(f: LogFile, im: FileImage, next: nat)
    requires f.records != [] && im == FileImage(f.records, 0, f.records[0].id) && Consecutive(f.records, next)
    ensures Reopened([im]) == Some(f.records)
  {
    hide Replayed;
    assert [im][1..] == [] && forall i :: 0 <= i < |[im]| ==> [im][i] == im;
    assert NonEmpty([im]) == [im] + NonEmpty([]);
    assert NonEmpty([im]) == [im] + [];
    assert f.records[0].id == next - |f.records|;
    RunWhole(f.records, im.first);
    ReplayedStep(im, [], im.first);
    ReplayedNone(im.first + |f.records|);
    assert [im] + [] == [im] && f.records + [] == f.records;
  }

  /** Some cell covered by flush and log is not as after the first `last` records. */
  ghost predicate Differs(image: Tables, replayed: seq<Record>, p: Past, first: nat, last: nat)
    requires first <= |p.history| && last <= |p.history|
  {
    exists c :: Covered(p, first, c) && !RecoveredAt(image, replayed, p, last, c)
  }

  /**
   * Where replay starts late the result can be no state the database was ever in. Two records are logged; the first
   * file is being flushed but not synced yet, the second has just been opened, and the crash loses the first one only.
   */
  lemma LateStartBreaks() returns (s: Stages, p: Past, ims: seq<FileImage>)
    ensures s.Valid(true) && LogFits(s, p, map[], 0, true) && TornTables(map[], p, s) && First(s, p) == 0
    ensures AllSurvive(FilesOf(s), ims) && Reopened(ims).Some? && StartsLate(ims)
    ensures forall last :: 0 <= last <= |p.history| ==> Differs(map[], Reopened(ims).value, p, 0, last)
  {
    hide Stages.Valid, LogFits, EnactAll, At, Reopened, StartsLate, OverlayOf, Record.Writes, Record.DataAt;
    var x, y := SlotId(0, 1), SlotId(0, 2);
    var r1 := Record(1, map[x := [1], y := [1]], map[]);
    var r2 := Record(2, map[y := [2]], map[]);
    var f, a := LogFile(0, [r1], 1, false), LogFile(1, [r2], 1, false);
    p := Past(map[], 1, [r1, r2], 0, map[]);
    ims := [FileImage([], 0, 1), FileImage([r2], 0, 2)];
    s := Stages(Some(a), Some(f), None, 0, false, [], [], 3, 2, OverlayOf([r1, r2]), true);
    TwoFilesValid(s, p, f, a, r1, r2);
    assert FilesOf(s) == [f, a];
    ReplaysSecond(ims, r2);
    TwoStates(r1, r2, x, y);
    assert p.history[..0] == [];
    EnactNone();
    assert Covered(p, 0, Slot(x)) && Covered(p, 0, Slot(y));
    FlushedIsBegun(s, p, map[], 0);
    forall last | 0 <= last <= |p.history|
      ensures Differs(map[], Reopened(ims).value, p, 0, last)
    {
      if last == 0 {
        assert !RecoveredAt(map[], [r2], p, last, Slot(y));
      } else {
        assert p.history[..last] == if last == 1 then [r1] else [r1, r2];
        assert !RecoveredAt(map[], [r2], p, last, Slot(x));
      }
    }
  }

  /** The same state, with a crash that leaves eight bytes of the first file: the database cannot be opened again. */
  lemma OpenFails() returns (s: Stages, p: Past, ims: seq<FileImage>)
    ensures s.Valid(true) && LogFits(s, p, map[], 0, true) && s.flushing.Some? && s.appending.Some?
    ensures AllSurvive(FilesOf(s), ims) && Reopened(ims).None?
  {
    hide Stages.Valid, LogFits, OverlayOf;
    var r1, r2 := Record(1, map[SlotId(0, 1) := [1]], map[]), Record(2, map[SlotId(0, 2) := [2]], map[]);
    var f, a := LogFile(0, [r1], 1, false), LogFile(1, [r2], 1, false);
    p := Past(map[], 1, [r1, r2], 0, map[]);
    s := Stages(Some(a), Some(f), None, 0, false, [], [], 3, 2, OverlayOf([r1, r2]), true);
    TwoFilesValid(s, p, f, a, r1, r2);
    ims := [FileImage([], 8, 1), FileImage([r2], 0, 2)];
    assert FilesOf(s) == [f, a] && ims[0].Stub();
  }

  lemma TwoStates(r1: Record, r2: Record, x: SlotId, y: SlotId)
    requires x != y && r1.slots == map[x := [1], y := [1]] && r2.slots == map[y := [2]]
    ensures At(EnactAll(map[], []), Slot(y)) == [] && At(EnactAll(map[], [r2]), Slot(y)) == [2]
    ensures At(EnactAll(map[], [r2]), Slot(x)) == []
    ensures At(EnactAll(map[], [r1]), Slot(x)) == [1] == At(EnactAll(map[], [r1, r2]), Slot(x))
  {
    hide EnactAll, Enact, At;
    One(map[], r1);
    One(map[], r2);
    EnactAllOne(map[], [r1], r2);
    assert [r1] + [r2] == [r1, r2];
    EnactNone();
    AtEnact(map[], r2, Slot(y));
    AtEnact(map[], r2, Slot(x));
    AtEnact(map[], r1, Slot(x));
    AtEnact(Enact(map[], r1), r2, Slot(x));
    AtNone(Slot(x));
    AtNone(Slot(y));
  }

  lemma One(t: Tables, r: Record)
    ensures EnactAll(t, [r]) == Enact(t, r)
  {
    EnactAllOne(t, [], r);
    assert [] + [r] == [r];
  }

  lemma AtNone(c: Cell)
    ensures At(map[], c) == []
  {
  }

  lemma ReplaysSecond(ims: seq<FileImage>, r2: Record)
    requires r2.id == 2 && ims == [FileImage([], 0, 1), FileImage([r2], 0, 2)]
    ensures Reopened(ims) == Some([r2]) && StartsLate(ims)
  {
    assert ims[1..] == [ims[1]] && ims[1..][1..] == [];
    assert NonEmpty(ims[1..]) == [ims[1]] + NonEmpty([]);
    assert NonEmpty(ims) == [ims[1]];
    RunWhole([r2], 2);
    ReplayedStep(ims[1], [], 2);
    assert [ims[1]] + [] == [ims[1]];
    assert [r2] + [] == [r2];
  }

  lemma TwoFilesValid(s: Stages, p: Past, f: LogFile, a: LogFile, r1: Record, r2: Record)
    requires f == LogFile(0, [r1], 1, false) && a == LogFile(1, [r2], 1, false) && r1.id == 1 && r2.id == 2
    requires r1.pages == map[] && r2.pages == map[] && p == Past(map[], 1, [r1, r2], 0, map[])
    requires s == Stages(Some(a), Some(f), None, 0, false, [], [], 3, 2, OverlayOf([r1, r2]), true)
    ensures s.Valid(true) && LogFits(s, p, map[], 0, true)
  {
    hide Chained, OverlayOf, AllDistinct, Stages.FileIds, EnactAll;
    assert s.All() == [r1, r2] == s.Pending();
    TwoNames(s, f, a);
    TwoChained(r1, r2);
    assert [r1, r2][..0] == [];
    EnactNone();
  }

  lemma TwoNames(s: Stages, f: LogFile, a: LogFile)
    requires s.appending == Some(a) && s.flushing == Some(f) && s.reading.None? && s.cleanup == s.pool == []
    requires f.id == 0 && a.id == 1
    ensures AllDistinct(s.FileIds(), 2)
  {
    NoIds();
    assert s.FileIds() == multiset{0, 1};
  }

  lemma TwoChained(r1: Record, r2: Record)
    requires r1.Valid() && r2.Valid() && (forall q :: q in r1.pages ==> Untouched(map[], r1, q)) && r2.pages == map[]
    ensures Chained(map[], [r1, r2])
  {
    hide EnactAll;
    assert [r1, r2][..1] == [r1] && [r1][..0] == [];
    assert Chained(map[], []);
    assert EnactAll(map[], []) == map[] by { EnactNone(); }
    assert Chained(map[], [r1]);
  }

  ghost predicate Untouched(t: Tables, r: Record, q: PageId)
    requires q in r.pages && r.Valid()
  {
    forall i :: 0 <= i < CHUNK_ENTRIES && i !in r.pages[q].mask ==> r.pages[q].page[i] == At(t, Item(q, i))
  }

  lemma EnactNone()
    ensures EnactAll(map[], []) == map[]
  {
  }

  /**
   * A cell that flushes have not covered can be lost. Record 1 writes an entry of index table 7, which is then queued
   * for reindexing. The flush before its log is dropped does not cover it, and the crash finds it not written yet.
   */
  lemma QueuedIndexLost() returns (s: Stages, p: Past, tables: Tables, image: Tables, ims: seq<FileImage>, c: Cell)
    ensures |p.history| == 2 && c.Item? && !Covered(p, 1, c) && At(image, c) == At(p.start, c)
    ensures First(s, p) == 1 && Begun(s, p) == 2 && Reopened(ims).Some? && !StartsLate(ims)
    ensures !RecoveredAt(image, Reopened(ims).value, p, 2, c)
    ensures AllSurvive(FilesOf(s), ims) && TornTables(image, p, s)
    ensures s.Valid(true) && LogFits(s, p, tables, 2, true)
  {
    hide Stages.Valid, LogFits, EnactAll, At, Reopened, StartsLate, Survives, TornAt, Record.Writes, Record.DataAt;
    hide Covered, RecoveredAt;
    var q, x := PageId(7, 0), SlotId(0, 1);
    var page: seq<Data> := seq(CHUNK_ENTRIES, i => if i == 0 then [1] else []);
    var r1 := Record(1, map[], map[q := PageWrite({0}, page)]);
    var r2 := Record(2, map[x := [2]], map[]);
    var f := LogFile(1, [r2], 1, true);
    p := Past(map[], 1, [r1, r2], 2, map[7 := 0]);
    s := Stages(None, None, Some(f), 1, false, [], [], 3, 2, NoOverlays, false);
    tables := EnactAll(map[], [r1, r2]);
    image := map[Slot(x) := [2]];
    ims := [FileImage([r2], 0, 2)];
    c := Item(q, 0);
    ItemState(r1, r2, q, x);
    assert Untouched(map[], r1, q) by { BlankPage(q); }
    OneFileValid(s, p, f, r1, r2);
    WholeReopens(f, ims[0], 3);
    assert FilesOf(s) == [f] && Survives(f, ims[0]) by { WholeSurvives(f, ims[0]); }
    NotLate(ims);
    TornButItem(image, p, r1, r2, q, x);
    FlushedIsBegun(s, p, tables, 2);
    ItemLost(image, p, r1, r2, c);
  }

  lemma BlankPage(q: PageId)
    ensures forall i :: At(map[], Item(q, i)) == []
  {
  }

  lemma WholeSurvives(f: LogFile, im: FileImage)
    requires f.records != [] && im == FileImage(f.records, 0, f.records[0].id)
    ensures Survives(f, im)
  {
  }

  lemma ItemLost(image: Tables, p: Past, r1: Record, r2: Record, c: Cell)
    requires p == Past(map[], 1, [r1, r2], 2, map[7 := 0]) && c.Item? && c.page.table == 7 && r1.Writes(c)
    requires At(EnactAll(image, [r2]), c) == [] && At(EnactAll(map[], [r1, r2]), c) == [1]
    ensures !Covered(p, 1, c) && !RecoveredAt(image, [r2], p, 2, c)
  {
    hide EnactAll, Record.Writes, At;
    assert p.history[..2] == [r1, r2] && p.history[0] == r1;
  }

  lemma NotLate(ims: seq<FileImage>)
    requires ims != [] && !ims[0].Empty()
    ensures !StartsLate(ims)
  {
  }

  lemma OneFileValid(s: Stages, p: Past, f: LogFile, r1: Record, r2: Record)
    requires f == LogFile(1, [r2], 1, true) && r1.id == 1 && r2.id == 2 && p == Past(map[], 1, [r1, r2], 2, map[7 := 0])
    requires r1.Valid() && r2.Valid() && (forall q :: q in r1.pages ==> Untouched(map[], r1, q)) && r2.pages == map[]
    requires s == Stages(None, None, Some(f), 1, false, [], [], 3, 2, NoOverlays, false)
    ensures s.Valid(true) && LogFits(s, p, EnactAll(map[], [r1, r2]), 2, true)
  {
    hide Chained, EnactAll;
    assert s.All() == [r2] && s.Pending() == [];
    NoIds();
    assert s.FileIds() == multiset{1};
    TwoChained(r1, r2);
    assert [r1, r2][..2] == [r1, r2];
  }

  lemma ItemState(r1: Record, r2: Record, q: PageId, x: SlotId)
    requires r1.Valid() && r1.slots == map[] && q in r1.pages && r1.pages == map[q := PageWrite({0}, r1.pages[q].page)]
    requires r1.pages[q].page[0] == [1] && r2.slots == map[x := [2]] && r2.pages == map[]
    ensures r1.Writes(Item(q, 0)) && At(EnactAll(map[Slot(x) := [2]], [r2]), Item(q, 0)) == []
    ensures At(map[], Item(q, 0)) == [] == At(map[Slot(x) := [2]], Item(q, 0))
    ensures var t := EnactAll(map[], [r1, r2]);
      At(t, Item(q, 0)) == [1] && forall c :: c != Item(q, 0) ==> At(t, c) == At(map[Slot(x) := [2]], c)
  {
    hide EnactAll, Enact;
    var image: Tables := map[Slot(x) := [2]];
    One(map[], r1);
    One(image, r2);
    EnactAllOne(map[], [r1], r2);
    assert [r1] + [r2] == [r1, r2];
    AtEnact(image, r2, Item(q, 0));
    forall c
      ensures At(EnactAll(map[], [r1, r2]), c) == if c == Item(q, 0) then [1] else At(image, c)
    {
      AtEnact(map[], r1, c);
      AtEnact(Enact(map[], r1), r2, c);
    }
  }

  lemma TornButItem(image: Tables, p: Past, r1: Record, r2: Record, q: PageId, x: SlotId)
    requires p == Past(map[], 1, [r1, r2], 2, map[7 := 0]) && q.table == 7 && image == map[Slot(x) := [2]]
    requires r1.Writes(Item(q, 0)) && forall c :: c != Item(q, 0) ==> At(EnactAll(map[], [r1, r2]), c) == At(image, c)
    ensures forall c :: TornAt(image, p, 2, c)
  {
    hide EnactAll, Record.Writes;
    assert p.history[..2] == [r1, r2] && p.history[..0] == [];
    EnactNone();
    forall c
      ensures TornAt(image, p, 2, c)
    {
      if p.FlushedAt(c) == 0 {
        AtNone(c);
      }
    }
  }
}
