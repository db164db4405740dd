/** A hash column's index tables while entries move from an older table to the newest. */
module HashColumns {
  import opened Keys
  import opened Words
  import opened IndexEntries
  import opened Reindexing

  datatype Move = Move(key: Hash, address: nat)

  /** Some of the tables has the address where the prefix belongs. */
  ghost predicate Found(ts: seq<IndexTable>, prefix: nat, address: nat) {
    exists j :: 0 <= j < |ts| && Holds(ts[j], prefix, address)
  }

  ghost predicate Covers(ts: seq<IndexTable>, us: seq<IndexTable>) {
    forall p, a :: Found(ts, p, a) ==> Found(us, p, a)
  }

  /** Nothing is found in the later tables that was not found before. */
  ghost predicate NoMore(ts: seq<IndexTable>, us: seq<IndexTable>) {
    forall p, a :: Word(p) && Found(us, p, a) ==> Found(ts, p, a)
  }

  /** Nothing but this address, for the keys that start like this prefix. */
  ghost predicate NoMoreBut(ts: seq<IndexTable>, us: seq<IndexTable>, prefix: nat, address: nat) {
    forall p, a :: Word(p) && Found(us, p, a) ==> Found(ts, p, a) || (a == address && Top50(p) == Top50(prefix))
  }

  /** No other address is that of the key with this prefix and zeros behind it. */
  ghost predicate Alone(keys: KeyMap, prefix: nat, address: nat) {
    forall b :: b in keys && keys[b] == KeyOf(prefix) ==> b == address
  }

  /** The entry at a place of the source is found in one of the tables, by the prefix recovered from it. */
  ghost predicate MovedAt(source: IndexTable, c: nat, i: nat, ts: seq<IndexTable>, keys: KeyMap) {
    i < |source.Page(c)| ==>
      var e := source.Page(c)[i];
      var q, a := RecoverKeyPrefix(c, e, source.bits), Address(e, source.bits);
      e == 0 || !Alone(keys, q, a) || Found(ts, q, a)
  }

  ghost predicate Moved(source: IndexTable, upto: nat, ts: seq<IndexTable>, keys: KeyMap) {
    forall c: nat, i: nat :: c < upto && i < CHUNK_ENTRIES ==> MovedAt(source, c, i, ts, keys)
  }

  /** Every entry of a live value is where the value's key belongs. */
  ghost predicate Placed(keys: KeyMap, ts: seq<IndexTable>) {
    forall p, b :: Word(p) && Found(ts, p, b) && b in keys ==> Top50(p) == Top50(KeyPrefix(keys[b]))
  }

  ghost predicate Tidy(keys: KeyMap, ts: seq<IndexTable>) {
    NonePadded(keys) || Placed(keys, ts)
  }

  ghost predicate NonePadded(keys: KeyMap) {
    forall a :: a in keys ==> !Padded(keys[a])
  }

  /** Widths grow along the queue. */
  ghost predicate Growing(ts: seq<IndexTable>) {
    (forall i, j :: 0 <= i < j < |ts| ==> ts[i].bits < ts[j].bits) && forall i :: 0 <= i < |ts| ==> ts[i].Valid()
  }

  class HashColumn {
    /** The key stored with each live value, by its address. */
    const keys: KeyMap
    var index: IndexTable
    var queue: seq<IndexTable>
    var progress: nat

    ghost predicate Valid()
      reads this
    {
      Growing(queue + [index]) && (if queue == [] then progress == 0 else progress <= TotalChunks(queue[0]))
    }

    /** The tables that stay when the oldest one goes. */
    ghost function Later(): seq<IndexTable>
      reads this
    {
      (if queue == [] then [] else queue[1..]) + [index]
    }

    constructor (index: IndexTable, queue: seq<IndexTable>, keys: KeyMap)
      requires Growing(queue + [index])
      ensures Valid() && this.index == index && this.queue == queue && this.keys == keys && progress == 0
    {
      this.index, this.queue, this.keys, progress := index, queue, keys, 0;
    }

    /** The newest table is queued and one of twice the size takes its place. */
    method TriggerReindex()
      requires Valid() && index.bits < 49
      modifies this`index, this`queue
      ensures Valid() && index == IndexTable(old(index).bits + 1, map[]) && queue == old(queue) + [old(index)]
      ensures old(queue) != [] ==> Covers(old(Later()), Later())
      ensures Covers(old(queue + [index]), queue + [index]) && NoMore(old(queue + [index]), queue + [index])
    {
      hide Holds, Growing, Pow2, Word, Found, Covers, NoMore;
      ghost var before, all := Later(), queue + [index];
      queue := queue + [index];
      index := IndexTable(index.bits + 1, map[]);
      assert queue == all;
      GrowingMore(all, index);
      CoversMore(all, index);
      NoMoreEmpty(all, index);
      if old(queue) != [] {
        assert Later() == before + [index];
        CoversMore(before, index);
      }
    }

    /**
     * Adds an entry for a recovered key to the newest table, widening it if need be. Nothing happens where the key is
     * found already. False where the widest table is full, beyond which the original does not go.
     */
    method WriteReindexPlan(key: Hash, address: nat) returns (ok: bool)
      requires Valid() && queue != [] && Padded(key) && 0 < address <= LastAddress(queue[0].bits)
      modifies this`index, this`queue
      ensures Valid() && queue != [] && queue[0] == old(queue[0]) && index.bits >= old(index.bits)
      ensures Covers(old(Later()), Later())
      ensures NoMoreBut(old(queue + [index]), queue + [index], KeyPrefix(key), address)
      ensures ok && old(Tidy(keys, queue + [index])) && Alone(keys, KeyPrefix(key), address) ==>
        Found(Later(), KeyPrefix(key), address)
      ensures old(Hit(index, keys, key)) ==> ok && index == old(index) && queue == old(queue)
      ensures ok ==> (Found(Later(), KeyPrefix(key), address) <==>
                      old(!Hit(index, keys, key) || Found(Later(), KeyPrefix(key), address)))
      ensures !ok <==> old(!Hit(index, keys, key) && PageFull(index, KeyPrefix(key)) && index.bits == 49)
      ensures !ok ==> index == old(index) && queue == old(queue)
      ensures index.bits == old(if !Hit(index, keys, key) && PageFull(index, KeyPrefix(key)) && index.bits < 49
                                then index.bits + 1 else index.bits)
    {
      hide Holds, Padded, LastAddress, Covers, Found, ChunkIndex, KeyPrefix, Matches, NonePadded, Growing;
      hide IndexTable.Valid, Keeps;
      hide HoldsAt, WithEntry, ExtractKey, NewEntry, Pow2, NoMore, NoMoreBut, Tidy, Alone, Top50, PageFull;
      ghost var before, all := Later(), queue + [index];
      CoversSelf(before);
      NoMoreSelf(all);
      NoMoreButWeak(all, all, KeyPrefix(key), address);
      Narrower(queue + [index]);
      var found := SearchIndex(index, keys, key);
      if found.Some? {
        if Tidy(keys, all) && Alone(keys, KeyPrefix(key), address) {
          HitIsSame(queue, index, keys, key, address, found.value);
        }
        return true;
      }
      PrefixIsWord(key);
      var r, at := PlanInsert(index, KeyPrefix(key), address, None);
      FullIs(index, KeyPrefix(key), at);
      if r.Some? {
        Inserted(queue, index, r.value, KeyPrefix(key), address, at);
        index := r.value;
        return true;
      }
      if index.bits >= 49 {
        return false;
      }
      TriggerReindex();
      ghost var middle, widened := Later(), queue + [index];
      NoMoreButWeak(all, widened, KeyPrefix(key), address);
      Narrower(queue + [index]);
      var s, to := PlanInsert(index, KeyPrefix(key), address, None);
      NewTableFree(index, ChunkIndex(KeyPrefix(key), index.bits), to);
      Inserted(queue, index, s.value, KeyPrefix(key), address, to);
      index := s.value;
      CoversTwice(before, middle, Later());
      NoMoreTwice(all, widened, queue + [index], KeyPrefix(key), address);
      return true;
    }

    /** Collects the entries of the next pages of the oldest table; says whether that was the last of them. */
    method Reindex() returns (batch: seq<Move>, last: bool)
      requires Valid()
      modifies this`progress
      ensures Valid() && old(progress) <= progress
      ensures queue == [] ==> batch == [] && !last && progress == old(progress)
      ensures queue != [] ==> BatchOk(batch, queue[0].bits) && Listed(queue[0], old(progress), progress, batch)
      ensures queue != [] ==> FromSource(queue[0], batch)
      ensures queue != [] && old(progress) != TotalChunks(queue[0]) ==> old(progress) < progress
      ensures last <==> queue != [] && old(progress) != TotalChunks(queue[0]) && progress == TotalChunks(queue[0])
      ensures queue != [] ==> batch == MovesIn(queue[0], old(progress), progress)
      ensures |batch| < 8192 + 64 && (queue != [] && progress < TotalChunks(queue[0]) ==> |batch| >= 8192)
    {
      hide Padded, Growing, Pow2, RecoverKeyPrefix, KeyOf, Address, LastAddress, PageMoves;
      batch, last := [], false;
      if queue == [] || progress == TotalChunks(queue[0]) {
        return;
      }
      var source := queue[0];
      SourceValid(queue, index);
      var c := progress;
      while c < TotalChunks(source) && |batch| < MAX_REINDEX_BATCH
        invariant progress == old(progress) <= c <= TotalChunks(source) && (c == progress ==> batch == [])
        invariant BatchOk(batch, source.bits) && Listed(source, progress, c, batch) && FromSource(source, batch)
        invariant batch == MovesIn(source, progress, c) && |batch| < MAX_REINDEX_BATCH + CHUNK_ENTRIES
      {
        ghost var was := batch;
        batch := AddPage(source, c, batch);
        ListedMore(source, progress, c, was, batch);
        c := c + 1;
      }
      progress := c;
      last := c == TotalChunks(source);
    }

    method AddPage(source: IndexTable, c: nat, batch: seq<Move>) returns (more: seq<Move>)
      requires source.Valid() && c < TotalChunks(source) && BatchOk(batch, source.bits) && FromSource(source, batch)
      ensures batch <= more && BatchOk(more, source.bits) && FromSource(source, more)
      ensures forall i :: 0 <= i < CHUNK_ENTRIES ==> ListedAt(source, c, i, more)
      ensures more == batch + PageMoves(source, c, CHUNK_ENTRIES) && |more| <= |batch| + CHUNK_ENTRIES
    {
      hide Padded, Pow2, RecoverKeyPrefix, KeyOf, Address, LastAddress, Entry;
      more := batch;
      var page, i := source.Page(c), 0;
      while i < CHUNK_ENTRIES
        invariant i <= CHUNK_ENTRIES && batch <= more && BatchOk(more, source.bits) && FromSource(source, more)
        invariant forall j :: 0 <= j < i ==> ListedAt(source, c, j, more)
        invariant more == batch + PageMoves(source, c, i) && |more| <= |batch| + i
      {
        PageEntry(source, c, i);
        if page[i] != 0 {
          MoveOk(c, page[i], source.bits) by { PageEntry(source, c, i); }
          ghost var was := more;
          var m := Move(KeyOf(RecoverKeyPrefix(c, page[i], source.bits)), Address(page[i], source.bits));
          FromSourceMore(source, more, m, c, i);
          more := more + [m];
          assert m == more[|was|] && forall x :: x in was ==> x in more;
          forall j | 0 <= j < i
            ensures ListedAt(source, c, j, more)
          {
            assert ListedAt(source, c, j, was);
          }
        }
        i := i + 1;
      }
    }

    /** One round of reindexing: a batch is collected and written. */
    method ProcessReindex() returns (ok: bool, last: bool)
      requires Valid() && queue != []
      modifies this
      ensures Valid() && queue != [] && queue[0] == old(queue[0]) && progress >= old(progress)
      ensures old(progress) != TotalChunks(queue[0]) ==> progress > old(progress)
      ensures last <==> old(progress) != TotalChunks(queue[0]) && progress == TotalChunks(queue[0])
      ensures Covers(old(Later()), Later())
      ensures NoMore(old(queue + [index]), queue + [index])
      ensures ok && old(Tidy(keys, queue + [index]) && Moved(queue[0], progress, Later(), keys)) ==>
        Moved(queue[0], progress, Later(), keys)
      ensures old(Hidden(queue[0], index, keys)) ==> ok && index == old(index) && queue == old(queue)
      ensures !ok ==> index.bits == 49
    {
      hide Padded, Growing, Pow2, Covers, Found, NonePadded, KeyPrefix, LastAddress, Moved, Listed, Hit, Hidden;
      hide FromSource;
      hide NoMore, NoMoreBut, Tidy, Alone, AllMoved, IndexTable.Valid;
      var batch, l := Reindex();
      last := l;
      var i := 0;
      ok := true;
      ghost var before, source, all := Later(), queue[0], queue + [index];
      SourceValid(queue, index);
      CoversSelf(before);
      NoMoreSelf(all);
      NoneMoved(batch, before, keys);
      while i < |batch|
        invariant i <= |batch| && Valid() && queue != [] && queue[0] == source && Covers(before, Later())
        invariant progress >= old(progress) && (old(progress) != TotalChunks(source) ==> progress > old(progress))
        invariant last <==> old(progress) != TotalChunks(source) && progress == TotalChunks(source)
        invariant BatchOk(batch, source.bits) && Listed(source, old(progress), progress, batch)
        invariant NoMore(all, queue + [index]) && (Tidy(keys, all) ==> AllMoved(batch, i, Later(), keys))
        invariant ok && FromSource(source, batch)
        invariant old(Hidden(queue[0], index, keys)) ==> index == old(index) && queue == old(queue)
      {
        if Hidden(source, index, keys) {
          HiddenMove(source, index, keys, batch, i);
        }
        ghost var was, now := Later(), queue + [index];
        TidyStill(keys, all, now);
        ok := WriteReindexPlan(batch[i].key, batch[i].address);
        CoversTwice(before, was, Later());
        NoMoreMoved(source, batch, i, all, now, queue + [index]);
        if !ok {
          return;
        }
        if Tidy(keys, all) {
          OneMoved(batch, i, was, Later(), keys);
        }
        i := i + 1;
      }
      if Tidy(keys, all) && Moved(source, old(progress), before, keys) {
        BatchMoved(source, old(progress), progress, batch, before, Later(), keys);
      }
    }

    /** The oldest table goes, if it is the one named; all its pages have been gone through then. */
    method DropIndex(bits: Bits) returns (dropped: bool)
      requires Valid()
      modifies this`queue, this`progress
      ensures Valid() && index == old(index) && dropped == (old(queue) != [] && old(queue)[0].bits == bits)
      ensures if dropped then queue == old(queue)[1..] && progress == 0 && queue + [index] == old(Later())
        else queue == old(queue) && progress == old(progress)
    {
      hide Pow2, IndexTable.Valid;
      if queue == [] || queue[0].bits != bits {
        return false;
      }
      GrowingTail(queue, index);
      queue := queue[1..];
      progress := 0;
      return true;
    }

    /**
     * The whole move, however often the newest table is widened on the way: afterwards nothing is found that was not
     * found before, in any of the tables and for any key. An address found before is found in those that are left,
     * unless another one is that of the key made of the prefix recovered for it and zeros; no column loses any if no
     * stored key is of that form.
     */
    method ReindexOldest() returns (ok: bool)
      requires Valid() && queue != [] && progress == 0
      modifies this
      ensures Valid() && NoMore(old(queue + [index]), queue + [index])
      ensures ok && old(Tidy(keys, queue + [index])) ==> forall p, a ::
        Word(p) && Found(old(queue + [index]), p, a) && Alone(keys, Top50(p), a) ==> Found(queue + [index], p, a)
      ensures ok && NonePadded(keys) ==> forall p, a ::
        Word(p) && Found(old(queue + [index]), p, a) ==> Found(queue + [index], p, a)
      ensures old(Hidden(queue[0], index, keys)) ==> ok && index == old(index) && queue == old(queue)[1..]
      ensures if ok then progress == 0 && forall t :: t in queue ==> t.bits > old(queue[0].bits) else index.bits == 49
    {
      hide Padded, Growing, Pow2, Covers, Found, NonePadded, Moved, Word, Hidden, NoMore, Tidy, Alone, Top50;
      ghost var source, before, all := queue[0], Later(), queue + [index];
      SourceValid(queue, index);
      CoversSelf(before);
      NoMoreSelf(all);
      MovedNone(source, before, keys);
      ok := true;
      while ok && progress != TotalChunks(queue[0])
        invariant Valid() && queue != [] && queue[0] == source && Covers(before, Later())
        invariant NoMore(all, queue + [index])
        invariant ok && Tidy(keys, all) ==> Moved(source, progress, Later(), keys)
        invariant ok || index.bits == 49
        invariant old(Hidden(queue[0], index, keys)) ==> ok && index == old(index) && queue == old(queue)
        decreases ok, TotalChunks(source) - progress
      {
        ghost var was, now := Later(), queue + [index];
        TidyStill(keys, all, now);
        var done, last := ProcessReindex();
        ok := done;
        CoversTwice(before, was, Later());
        NoMoreChain(all, now, queue + [index]);
      }
      if !ok {
        return;
      }
      ghost var after, end := Later(), queue + [index];
      assert all == [source] + before;
      NoneHides(keys, all);
      if Tidy(keys, all) {
        DropLosesNothing(source, before, after, keys);
      }
      OldestNarrowest(queue, index);
      var _ := DropIndex(queue[0].bits);
      NoMoreTail(all, end, after);
    }
  }

  lemma OldestNarrowest(queue: seq<IndexTable>, index: IndexTable)
    requires Growing(queue + [index]) && queue != []
    ensures forall t :: t in queue[1..] ==> t.bits > queue[0].bits
  {
    hide IndexTable.Valid;
    var ts := queue + [index];
    forall t | t in queue[1..]
      ensures t.bits > queue[0].bits
    {
      var i :| 0 <= i < |queue[1..]| && queue[1..][i] == t;
      assert ts[i + 1] == t && ts[0] == queue[0];
    }
  }

  /** All places of the page where the prefix belongs are taken. */
  ghost predicate PageFull(t: IndexTable, prefix: nat) {
    forall i :: 0 <= i < |t.Page(ChunkIndex(prefix, t.bits))| ==> t.Page(ChunkIndex(prefix, t.bits))[i] != 0
  }

  lemma FullIs(t: IndexTable, prefix: nat, at: nat)
    requires t.Valid() && FirstFree(t.Page(ChunkIndex(prefix, t.bits)), at)
    ensures at < CHUNK_ENTRIES <==> !PageFull(t, prefix)
  {
    hide ChunkIndex, Entry;
  }

  /** What an insertion into the newest table does to what is found. */
  lemma Inserted(queue: seq<IndexTable>, t: IndexTable, u: IndexTable, prefix: nat, address: nat, at: nat)
    requires queue != [] && Growing(queue + [t]) && t.Valid() && u.Valid() && at < CHUNK_ENTRIES && Word(prefix)
    requires FirstFree(t.Page(ChunkIndex(prefix, t.bits)), at) && HoldsAt(u, prefix, address, at)
    requires u == WithEntry(t, ChunkIndex(prefix, t.bits), at, NewEntry(address, ExtractKey(prefix, t.bits), t.bits))
    ensures Growing(queue + [u]) && u.bits == t.bits
    ensures Covers(queue[1..] + [t], queue[1..] + [u]) && Found(queue[1..] + [u], prefix, address)
    ensures address > 0 && address <= LastAddress(t.bits) ==> NoMoreBut(queue + [t], queue + [u], prefix, address)
  {
    hide Growing, Covers, Found, ExtractKey, NewEntry, ChunkIndex, HoldsAt, NoMoreBut, LastAddress, Top50;
    if 0 < address <= LastAddress(t.bits) {
      OneNew(queue, t, u, prefix, address, at);
    }
    InsertedKeeps(t, ChunkIndex(prefix, t.bits), at, NewEntry(address, ExtractKey(prefix, t.bits), t.bits));
    assert Holds(u, prefix, address);
    ReplaceLast(queue[1..], t, u, prefix, address);
    GrowingReplaced(queue, t, u);
  }

  lemma OneNew(queue: seq<IndexTable>, t: IndexTable, u: IndexTable, prefix: nat, address: nat, at: nat)
    requires t.Valid() && at < CHUNK_ENTRIES && Word(prefix) && 0 < address <= LastAddress(t.bits)
    requires u == WithEntry(t, ChunkIndex(prefix, t.bits), at, NewEntry(address, ExtractKey(prefix, t.bits), t.bits))
    ensures NoMoreBut(queue + [t], queue + [u], prefix, address)
  {
    hide Holds, WithEntry, ExtractKey, NewEntry, ChunkIndex, LastAddress, Top50, Word;
    var before, after := queue + [t], queue + [u];
    forall p, a | Word(p) && Found(after, p, a)
      ensures Found(before, p, a) || (a == address && Top50(p) == Top50(prefix))
    {
      var j :| 0 <= j < |after| && Holds(after[j], p, a);
      if j == |queue| {
        HeldBefore(t, u, prefix, address, at, p, a);
        assert before[j] == t;
      } else {
        assert before[j] == after[j];
      }
    }
  }

  lemma HeldBefore(t: IndexTable, u: IndexTable, prefix: nat, address: nat, at: nat, p: nat, a: nat)
    requires t.Valid() && at < CHUNK_ENTRIES && Word(prefix) && 0 < address <= LastAddress(t.bits) && Word(p)
    requires Holds(u, p, a)
    requires u == WithEntry(t, ChunkIndex(prefix, t.bits), at, NewEntry(address, ExtractKey(prefix, t.bits), t.bits))
    ensures Holds(t, p, a) || (a == address && Top50(p) == Top50(prefix))
  {
    hide ExtractKey, NewEntry, ChunkIndex, LastAddress, Top50, Word, PartialKey, Address, Entry;
    PackUnpack(address, prefix, t.bits);
    var i :| 0 <= i < CHUNK_ENTRIES && HoldsAt(u, p, a, i);
    if ChunkIndex(p, t.bits) == ChunkIndex(prefix, t.bits) && i == at {
      SamePlace(p, prefix, t.bits);
    } else {
      assert HoldsAt(t, p, a, i);
    }
  }

  // What is found, from step to step.

  lemma NoMoreSelf(ts: seq<IndexTable>)
    ensures NoMore(ts, ts)
  {
  }

  lemma NoMoreButWeak(ts: seq<IndexTable>, us: seq<IndexTable>, prefix: nat, address: nat)
    requires NoMore(ts, us)
    ensures NoMoreBut(ts, us, prefix, address)
  {
  }

  lemma NoMoreChain(ts: seq<IndexTable>, us: seq<IndexTable>, vs: seq<IndexTable>)
    requires NoMore(ts, us) && NoMore(us, vs)
    ensures NoMore(ts, vs)
  {
    hide Word, Found;
  }

  lemma NoMoreTwice(ts: seq<IndexTable>, us: seq<IndexTable>, vs: seq<IndexTable>, prefix: nat, address: nat)
    requires NoMore(ts, us) && NoMoreBut(us, vs, prefix, address)
    ensures NoMoreBut(ts, vs, prefix, address)
  {
    hide Word, Found, Top50;
  }

  lemma NoMoreEmpty(ts: seq<IndexTable>, t: IndexTable)
    requires t.pages == map[]
    ensures NoMore(ts, ts + [t])
  {
    hide Word, PartialKey, ExtractKey, Address, ChunkIndex;
    var us := ts + [t];
    forall p, a | Found(us, p, a)
      ensures Found(ts, p, a)
    {
      var j :| 0 <= j < |us| && Holds(us[j], p, a);
      assert j < |ts| ==> us[j] == ts[j];
    }
  }

  lemma NoMoreTail(ts: seq<IndexTable>, us: seq<IndexTable>, vs: seq<IndexTable>)
    requires NoMore(ts, us) && |us| > 0 && vs == us[1..]
    ensures NoMore(ts, vs)
  {
    hide Word, Holds;
    forall p, a | Word(p) && Found(vs, p, a)
      ensures Found(ts, p, a)
    {
      var j :| 0 <= j < |vs| && Holds(vs[j], p, a);
      assert us[j + 1] == vs[j];
    }
  }

  lemma TidyStill(keys: KeyMap, ts: seq<IndexTable>, us: seq<IndexTable>)
    requires NoMore(ts, us)
    ensures Tidy(keys, ts) ==> Tidy(keys, us)
  {
    hide Word, Found, Top50, KeyPrefix, NonePadded;
  }

  /** What a move puts into the newest table was found in the source. */
  lemma NoMoreMoved(source: IndexTable, batch: seq<Move>, i: nat, ts: seq<IndexTable>, us: seq<IndexTable>,
                    vs: seq<IndexTable>)
    requires FromSource(source, batch) && i < |batch| && source.Valid() && us != [] && us[0] == source
    requires NoMore(ts, us) && NoMoreBut(us, vs, KeyPrefix(batch[i].key), batch[i].address)
    ensures NoMore(ts, vs)
  {
    hide Word, Holds, Top50, KeyPrefix, EntryAt, IndexTable.Valid;
    var m := batch[i];
    assert InSource(source, m);
    forall p, a | Word(p) && Found(vs, p, a)
      ensures Found(ts, p, a)
    {
      if a == m.address && Top50(p) == Top50(KeyPrefix(m.key)) {
        SourceHolds(source, m, p);
        assert Found(us, p, a);
      }
    }
  }

  lemma SourceHolds(source: IndexTable, m: Move, p: nat)
    requires source.Valid() && InSource(source, m) && Word(p) && Top50(p) == Top50(KeyPrefix(m.key))
    ensures Holds(source, p, m.address)
  {
    hide RecoverKeyPrefix, Address, PartialKey, ExtractKey, ChunkIndex, Top50, Pow2, Word, KeyOf, KeyPrefix, Padded;
    var c: nat, i: nat :| EntryAt(source, m, c, i);
    PageEntry(source, c, i);
    var e := source.Page(c)[i];
    var q := RecoverKeyPrefix(c, e, source.bits);
    RecoveredIsPadded(c, e, source.bits);
    KeyOfPrefix(q);
    assert HoldsAt(source, q, m.address, i);
    PrefixIsEnough(p, source.bits);
    SamePlaceHolds(source, q, p, m.address);
  }

  // Which entries are moved.

  ghost predicate AllMoved(batch: seq<Move>, n: nat, ts: seq<IndexTable>, keys: KeyMap) {
    forall j :: 0 <= j < n && j < |batch| ==> MoveFound(batch[j], ts, keys)
  }

  ghost predicate MoveFound(m: Move, ts: seq<IndexTable>, keys: KeyMap) {
    Alone(keys, KeyPrefix(m.key), m.address) ==> Found(ts, KeyPrefix(m.key), m.address)
  }

  lemma NoneMoved(batch: seq<Move>, ts: seq<IndexTable>, keys: KeyMap)
    ensures AllMoved(batch, 0, ts, keys)
  {
  }

  lemma OneMoved(batch: seq<Move>, i: nat, ts: seq<IndexTable>, us: seq<IndexTable>, keys: KeyMap)
    requires i < |batch| && AllMoved(batch, i, ts, keys) && Covers(ts, us) && MoveFound(batch[i], us, keys)
    ensures AllMoved(batch, i + 1, us, keys)
  {
    hide Found, Alone, KeyPrefix;
    forall j | 0 <= j < i
      ensures MoveFound(batch[j], us, keys)
    {
      assert MoveFound(batch[j], ts, keys);
    }
  }

  /** Where no stored key is padded no entry is hidden. */
  lemma NoneHides(keys: KeyMap, ts: seq<IndexTable>)
    ensures NonePadded(keys) ==> Tidy(keys, ts) && forall p, a :: Word(p) ==> Alone(keys, Top50(p), a)
  {
    hide Placed, KeyOf, Padded, Word, Top50;
    if NonePadded(keys) {
      forall p, a | Word(p)
        ensures Alone(keys, Top50(p), a)
      {
        TopIsPadded(p);
      }
    }
  }

  lemma TopIsPadded(p: nat)
    requires Word(p)
    ensures Word(Top50(p)) && Top50(Top50(p)) == Top50(p) && Padded(KeyOf(Top50(p)))
  {
    hide Padded, KeyOf, RecoverKeyPrefix, NewEntry, ExtractKey, ChunkIndex, Top50, Pow2, LastAddress;
    OneAddress(16);
    RecoverTop50(1, p, 16);
    EntryFits(1, p, 16);
    PageNumber(p, 16);
    RecoveredIsPadded(ChunkIndex(p, 16), NewEntry(1, ExtractKey(p, 16), 16), 16);
  }

  lemma OneAddress(bits: Bits)
    ensures 1 <= LastAddress(bits)
  {
    Wider(1, AddressBits(bits));
    assert Pow2(1) == 2 * Pow2(0);
  }

  /** A padded key is its prefix and zeros. */
  lemma PaddedIsKeyOf(key: Hash)
    requires Padded(key)
    ensures key == KeyOf(KeyPrefix(key))
  {
    hide Top50, KeyPrefix;
    PrefixIsWord(key);
    KeyOfPrefix(KeyPrefix(key));
    SamePrefix(key, KeyOf(KeyPrefix(key)));
    assert key[8..] == KeyOf(KeyPrefix(key))[8..];
    assert key == key[..8] + key[8..];
    assert KeyOf(KeyPrefix(key)) == KeyOf(KeyPrefix(key))[..8] + KeyOf(KeyPrefix(key))[8..];
  }

  lemma SamePrefix(k: Hash, l: Hash)
    requires KeyPrefix(k) == KeyPrefix(l)
    ensures k[..8] == l[..8]
  {
    BEInjective(k[..8], l[..8]);
  }

  /** A recovered key that is found already, with no other address its own, is found with its own address. */
  lemma HitIsSame(queue: seq<IndexTable>, t: IndexTable, keys: KeyMap, key: Hash, address: nat, i: nat)
    requires queue != [] && Padded(key) && i < CHUNK_ENTRIES && Matches(t, keys, key, i)
    requires Tidy(keys, queue + [t]) && Alone(keys, KeyPrefix(key), address)
    ensures Found(queue[1..] + [t], KeyPrefix(key), address)
  {
    hide Padded, NonePadded, KeyPrefix, PartialKey, ExtractKey, Address, ChunkIndex, Top50, KeyOf, Word;
    MatchIsPadded(t, keys, key, i);
    var p := KeyPrefix(key);
    var b := Address(t.Page(ChunkIndex(p, t.bits))[i], t.bits);
    assert HoldsAt(t, p, b, i);
    assert (queue + [t])[|queue|] == t && (queue[1..] + [t])[|queue| - 1] == t;
    PrefixIsWord(key);
    PrefixIsWord(keys[b]);
    PrefixIsEnough(p, t.bits);
    PrefixIsEnough(KeyPrefix(keys[b]), t.bits);
    KeyDetermined(key, keys[b], t.bits);
    PaddedIsKeyOf(key);
  }

  lemma NewTableFree(t: IndexTable, c: nat, at: nat)
    requires t.pages == map[] && FirstFree(t.Page(c), at)
    ensures at == 0
  {
    assert t.Page(c)[0] == 0;
  }

  /** The recovered keys and addresses of a batch can be written to any wider table. */
  ghost predicate BatchOk(batch: seq<Move>, bits: Bits) {
    forall j :: 0 <= j < |batch| ==> Padded(batch[j].key) && 0 < batch[j].address <= LastAddress(bits)
  }

  /** The moves of the first entries of a page, in order; empty places are passed over. */
  ghost function PageMoves(source: IndexTable, c: nat, n: nat): seq<Move> {
    if n == 0 then []
    else
      var e := if n <= |source.Page(c)| then source.Page(c)[n - 1] else 0;
      PageMoves(source, c, n - 1) +
      if e == 0 then [] else [Move(KeyOf(RecoverKeyPrefix(c, e, source.bits)), Address(e, source.bits))]
  }

  /** The moves of the entries of these pages, each once and in order. */
  ghost function MovesIn(source: IndexTable, from: nat, upto: nat): seq<Move> {
    if upto <= from then [] else MovesIn(source, from, upto - 1) + PageMoves(source, upto - 1, CHUNK_ENTRIES)
  }

  /** Every move of the batch is that of an entry of the source. */
  ghost predicate FromSource(source: IndexTable, batch: seq<Move>) {
    forall k :: 0 <= k < |batch| ==> InSource(source, batch[k])
  }

  ghost predicate InSource(source: IndexTable, m: Move) {
    exists c: nat, i: nat :: EntryAt(source, m, c, i)
  }

  ghost predicate EntryAt(source: IndexTable, m: Move, c: nat, i: nat) {
    c < TotalChunks(source) && i < |source.Page(c)| && source.Page(c)[i] != 0 &&
    m == Move(KeyOf(RecoverKeyPrefix(c, source.Page(c)[i], source.bits)), Address(source.Page(c)[i], source.bits))
  }

  lemma FromSourceMore(source: IndexTable, batch: seq<Move>, m: Move, c: nat, i: nat)
    requires FromSource(source, batch) && EntryAt(source, m, c, i)
    ensures FromSource(source, batch + [m])
  {
    hide EntryAt;
    assert InSource(source, m);
  }

  /** Whatever key is recovered from the source is found in the newest table already. */
  ghost predicate Hidden(source: IndexTable, index: IndexTable, keys: KeyMap) {
    forall m: Move, c: nat, i: nat :: EntryAt(source, m, c, i) ==> Hit(index, keys, m.key)
  }

  lemma HiddenMove(source: IndexTable, index: IndexTable, keys: KeyMap, batch: seq<Move>, k: nat)
    requires Hidden(source, index, keys) && FromSource(source, batch) && k < |batch|
    ensures Hit(index, keys, batch[k].key)
  {
    hide Hit, EntryAt;
  }

  ghost predicate ListedAt(source: IndexTable, c: nat, i: nat, batch: seq<Move>) {
    i < |source.Page(c)| && source.Page(c)[i] != 0 ==>
      Move(KeyOf(RecoverKeyPrefix(c, source.Page(c)[i], source.bits)), Address(source.Page(c)[i], source.bits)) in batch
  }

  ghost predicate Listed(source: IndexTable, from: nat, upto: nat, batch: seq<Move>) {
    forall c: nat, i: nat :: from <= c < upto && i < CHUNK_ENTRIES ==> ListedAt(source, c, i, batch)
  }

  lemma ListedMore(source: IndexTable, from: nat, upto: nat, batch: seq<Move>, more: seq<Move>)
    requires Listed(source, from, upto, batch) && batch <= more
    requires forall i :: 0 <= i < CHUNK_ENTRIES ==> ListedAt(source, upto, i, more)
    ensures Listed(source, from, upto + 1, more)
  {
    hide KeyOf, RecoverKeyPrefix, Address;
    forall c: nat, i: nat | from <= c < upto + 1 && i < CHUNK_ENTRIES
      ensures ListedAt(source, c, i, more)
    {
      if c < upto {
        assert ListedAt(source, c, i, batch);
      }
    }
  }

  lemma SourceValid(queue: seq<IndexTable>, index: IndexTable)
    requires Growing(queue + [index]) && queue != []
    ensures queue[0].Valid()
  {
    assert (queue + [index])[0] == queue[0];
  }

  lemma PageEntry(t: IndexTable, c: nat, i: nat)
    requires t.Valid() && i < CHUNK_ENTRIES
    ensures |t.Page(c)| == CHUNK_ENTRIES && Entry(t.Page(c)[i], t.bits)
  {
    EmptyEntry(t.bits);
  }

  lemma MoveOk(c: nat, e: nat, bits: Bits)
    requires Entry(e, bits) && e != 0 && c < Pow2(bits)
    ensures Padded(KeyOf(RecoverKeyPrefix(c, e, bits))) && 0 < Address(e, bits) <= LastAddress(bits)
  {
    hide Padded, KeyOf, RecoverKeyPrefix, Address, LastAddress, Pow2;
    RecoveredIsPadded(c, e, bits);
    UnpackPack(e, bits);
  }

  lemma MovedNone(source: IndexTable, ts: seq<IndexTable>, keys: KeyMap)
    ensures Moved(source, 0, ts, keys)
  {
  }

  /** Once a batch is written, its pages are moved too. */
  lemma BatchMoved(source: IndexTable, from: nat, upto: nat, batch: seq<Move>, before: seq<IndexTable>,
                   after: seq<IndexTable>,
                   keys: KeyMap)
    requires Listed(source, from, upto, batch) && Moved(source, from, before, keys) && Covers(before, after)
    requires AllMoved(batch, |batch|, after, keys) && source.Valid() && upto <= TotalChunks(source)
    ensures Moved(source, upto, after, keys)
  {
    hide Found, KeyOf, RecoverKeyPrefix, Address, KeyPrefix, Pow2, Alone;
    forall c: nat, i: nat | c < upto && i < CHUNK_ENTRIES
      ensures MovedAt(source, c, i, after, keys)
    {
      if c < from {
        assert MovedAt(source, c, i, before, keys);
      } else {
        assert ListedAt(source, c, i, batch);
        PageEntry(source, c, i);
        RecoveredIsPadded(c, source.Page(c)[i], source.bits);
        KeyOfPrefix(RecoverKeyPrefix(c, source.Page(c)[i], source.bits));
      }
    }
  }

  lemma GrowingTail(queue: seq<IndexTable>, index: IndexTable)
    requires Growing(queue + [index]) && queue != []
    ensures Growing(queue[1..] + [index])
  {
    var ts, us := queue + [index], queue[1..] + [index];
    assert us == ts[1..];
    forall i, j | 0 <= i < j < |us|
      ensures us[i].bits < us[j].bits
    {
      assert us[i] == ts[i + 1] && us[j] == ts[j + 1];
    }
  }

  /** What a moved table has for a key, at the place of its full prefix, the other tables have at theirs. */
  lemma MovedFound(source: IndexTable, ts: seq<IndexTable>, p: nat, a: nat, keys: KeyMap)
    requires Moved(source, TotalChunks(source), ts, keys) && Word(p) && Holds(source, p, a) && source.Valid()
    requires Alone(keys, Top50(p), a)
    ensures Found(ts, p, a)
  {
    hide RecoverKeyPrefix, Address, PartialKey, ExtractKey, ChunkIndex, Top50, Pow2, IndexTable.Page, Alone;
    var i :| 0 <= i < CHUNK_ENTRIES && HoldsAt(source, p, a, i);
    var c := ChunkIndex(p, source.bits);
    PageEntry(source, c, i);
    var e := source.Page(c)[i];
    PageNumber(p, source.bits);
    RecoveredIsPadded(c, e, source.bits);
    var q := RecoverKeyPrefix(c, e, source.bits);
    assert MovedAt(source, c, i, ts, keys);
    SamePlace(p, q, source.bits);
    var j :| 0 <= j < |ts| && Holds(ts[j], q, a);
    PrefixIsEnough(p, ts[j].bits);
    assert Holds(ts[j], p, a) by { SamePlaceHolds(ts[j], q, p, a); }
  }

  lemma SamePlaceHolds(t: IndexTable, q: nat, p: nat, a: nat)
    requires Holds(t, q, a) && ChunkIndex(q, t.bits) == ChunkIndex(p, t.bits)
    requires ExtractKey(q, t.bits) == ExtractKey(p, t.bits)
    ensures Holds(t, p, a)
  {
    hide Address, PartialKey, ExtractKey, ChunkIndex;
    var i :| 0 <= i < CHUNK_ENTRIES && HoldsAt(t, q, a, i);
    assert HoldsAt(t, p, a, i);
  }

  lemma PageNumber(p: nat, bits: Bits)
    requires Word(p)
    ensures ChunkIndex(p, bits) < Pow2(bits)
  {
    hide Right, Pow2;
    RightFits(p, 64 - bits, bits);
  }

  lemma DropLosesNothing(source: IndexTable, before: seq<IndexTable>, after: seq<IndexTable>, keys: KeyMap)
    requires Moved(source, TotalChunks(source), after, keys) && Covers(before, after) && source.Valid()
    ensures forall p, a :: Word(p) && Found([source] + before, p, a) && Alone(keys, Top50(p), a) ==> Found(after, p, a)
  {
    hide Holds, Word, Moved, IndexTable.Valid, Alone, Top50;
    forall p, a | Word(p) && Found([source] + before, p, a) && Alone(keys, Top50(p), a)
      ensures Found(after, p, a)
    {
      var j :| 0 <= j < |[source] + before| && Holds(([source] + before)[j], p, a);
      if j == 0 {
        MovedFound(source, after, p, a, keys);
      } else {
        assert before[j - 1] == ([source] + before)[j];
      }
    }
  }

  /** The search for a key hits some entry of a table. */
  ghost predicate Hit(t: IndexTable, keys: KeyMap, key: Hash) {
    exists i :: 0 <= i < CHUNK_ENTRIES && Matches(t, keys, key, i)
  }

  /** A stored key with nothing but zeros behind its top fifty bits is taken for every key it shares them with. */
  lemma PaddedIsHit(t: IndexTable, keys: KeyMap, key: Hash, address: nat)
    requires Padded(key) && address in keys && keys[address] == key && Holds(t, KeyPrefix(key), address)
    ensures Hit(t, keys, key)
  {
    var i :| 0 <= i < CHUNK_ENTRIES && HoldsAt(t, KeyPrefix(key), address, i);
    assert Matches(t, keys, key, i);
  }

  /** A table with a single entry, for an address of a key with this prefix. */
  function Single(bits: Bits, prefix: nat, address: nat): IndexTable {
    var entry := NewEntry(address, ExtractKey(prefix, bits), bits);
    IndexTable(bits, map[ChunkIndex(prefix, bits) := EmptyPage()[0 := entry]])
  }

  /**
   * The condition is exact. Where some other address is that of the key made of the prefix and zeros, so that this one
   * is not alone, there is a column with these keys in which that key hides it, and after the move no table finds it
   * any more.
   */
  method PaddedKeyHides(bits: Bits, prefix: nat, address: nat, padded: nat, keys: KeyMap)
    returns (column: HashColumn, ghost before: seq<IndexTable>)
    requires bits < 49 && Word(prefix) && address != padded
    requires padded in keys && keys[padded] == KeyOf(Top50(prefix))
    requires address in keys ==> Top50(KeyPrefix(keys[address])) == Top50(prefix)
    requires 0 < address <= LastAddress(bits) && 0 < padded <= LastAddress(bits + 1)
    ensures fresh(column) && column.Valid() && column.keys == keys && column.queue == []
    ensures before == [Single(bits, prefix, address), Single(bits + 1, prefix, padded)]
    ensures Growing(before) && Placed(keys, before) && Found(before, prefix, address)
    ensures !Found(column.queue + [column.index], prefix, address)
  {
    hide Single, Holds, Growing, NonePadded, Placed, Hidden, Alone, Found, KeyOf, KeyPrefix, Top50, Word, LastAddress;
    hide Tidy, NoMore;
    var source, newest := Single(bits, prefix, address), Single(bits + 1, prefix, padded);
    before := [source, newest];
    assert [source] + [newest] == before;
    SinglesGrow(bits, prefix, address, padded);
    SinglesPlaced(bits, prefix, address, padded, keys);
    SingleHides(bits, prefix, address, padded, keys);
    SingleFound(bits, prefix, address, padded);
    column := new HashColumn(newest, [source], keys);
    var _ := column.ReindexOldest();
    assert [source][1..] == [] && [] + [newest] == [newest];
  }

  lemma SingleValid(bits: Bits, prefix: nat, address: nat)
    requires 0 < address <= LastAddress(bits)
    ensures Single(bits, prefix, address).Valid()
  {
    hide NewEntry, ExtractKey, ChunkIndex, LastAddress, Word, Address, PartialKey;
    EntryFits(address, prefix, bits);
    PackUnpack(address, prefix, bits);
    EmptyEntry(bits);
  }

  lemma SinglesGrow(bits: Bits, prefix: nat, address: nat, padded: nat)
    requires bits < 49 && 0 < address <= LastAddress(bits) && 0 < padded <= LastAddress(bits + 1)
    ensures Growing([Single(bits, prefix, address), Single(bits + 1, prefix, padded)])
  {
    hide IndexTable.Valid, NewEntry, ExtractKey, ChunkIndex, LastAddress;
    SingleValid(bits, prefix, address);
    SingleValid(bits + 1, prefix, padded);
  }

  /** Such a table has its one address, for the keys that start like the prefix, and no other. */
  lemma SingleHolds(bits: Bits, prefix: nat, address: nat, p: nat, a: nat)
    requires Word(prefix) && Word(p) && 0 < address <= LastAddress(bits)
    ensures Holds(Single(bits, prefix, address), p, a) <==> a == address && Top50(p) == Top50(prefix)
  {
    hide NewEntry, ExtractKey, ChunkIndex, LastAddress, Word, Address, PartialKey, Top50;
    var t := Single(bits, prefix, address);
    PackUnpack(address, prefix, bits);
    if Holds(t, p, a) {
      var i :| 0 <= i < CHUNK_ENTRIES && HoldsAt(t, p, a, i);
      assert i == 0 && ChunkIndex(p, bits) == ChunkIndex(prefix, bits);
      SamePlace(p, prefix, bits);
    }
    if a == address && Top50(p) == Top50(prefix) {
      PrefixIsEnough(p, bits);
      PrefixIsEnough(prefix, bits);
      assert HoldsAt(t, p, a, 0);
    }
  }

  lemma SinglesPlaced(bits: Bits, prefix: nat, address: nat, padded: nat, keys: KeyMap)
    requires bits < 49 && Word(prefix) && 0 < address <= LastAddress(bits) && 0 < padded <= LastAddress(bits + 1)
    requires padded in keys && keys[padded] == KeyOf(Top50(prefix))
    requires address in keys ==> Top50(KeyPrefix(keys[address])) == Top50(prefix)
    ensures Placed(keys, [Single(bits, prefix, address), Single(bits + 1, prefix, padded)])
  {
    hide Single, Holds, KeyOf, KeyPrefix, Top50, Word, LastAddress;
    var ts := [Single(bits, prefix, address), Single(bits + 1, prefix, padded)];
    TopIsPadded(prefix);
    KeyOfPrefix(Top50(prefix));
    forall p, b | Word(p) && Found(ts, p, b) && b in keys
      ensures Top50(p) == Top50(KeyPrefix(keys[b]))
    {
      SingleHolds(bits, prefix, address, p, b);
      SingleHolds(bits + 1, prefix, padded, p, b);
    }
  }

  lemma SingleFound(bits: Bits, prefix: nat, address: nat, padded: nat)
    requires bits < 49 && Word(prefix) && 0 < address <= LastAddress(bits) && 0 < padded <= LastAddress(bits + 1)
    requires address != padded
    ensures Found([Single(bits, prefix, address), Single(bits + 1, prefix, padded)], prefix, address)
    ensures !Found([Single(bits + 1, prefix, padded)], prefix, address)
  {
    hide Single, Holds, Top50, Word, LastAddress;
    SingleHolds(bits, prefix, address, prefix, address);
    SingleHolds(bits + 1, prefix, padded, prefix, address);
    assert [Single(bits, prefix, address), Single(bits + 1, prefix, padded)][0] == Single(bits, prefix, address);
  }

  /** The key recovered from the one table is found in the other already. */
  lemma SingleHides(bits: Bits, prefix: nat, address: nat, padded: nat, keys: KeyMap)
    requires bits < 49 && Word(prefix) && 0 < address <= LastAddress(bits) && 0 < padded <= LastAddress(bits + 1)
    requires padded in keys && keys[padded] == KeyOf(Top50(prefix))
    ensures Hidden(Single(bits, prefix, address), Single(bits + 1, prefix, padded), keys)
  {
    hide NewEntry, ExtractKey, ChunkIndex, LastAddress, Word, Address, PartialKey, Top50, KeyOf, RecoverKeyPrefix;
    hide KeyPrefix, Padded, Hit;
    hide Holds, Pow2;
    var source, newest := Single(bits, prefix, address), Single(bits + 1, prefix, padded);
    TopIsPadded(prefix);
    KeyOfPrefix(Top50(prefix));
    RecoverTop50(address, prefix, bits);
    PackUnpack(address, prefix, bits);
    SingleHolds(bits + 1, prefix, padded, Top50(prefix), padded);
    PaddedIsHit(newest, keys, KeyOf(Top50(prefix)), padded);
    forall m: Move, c: nat, i: nat | EntryAt(source, m, c, i)
      ensures Hit(newest, keys, m.key)
    {
      assert c == ChunkIndex(prefix, bits) && i == 0;
    }
  }

  /** For example the key of 32 zeros, which hides every other key that starts with fifty zero bits. */
  method ZeroKeyHides() returns (column: HashColumn, ghost key: Hash)
    ensures fresh(column) && column.Valid() && 512 in column.keys && column.keys[512] == key
    ensures Found([Single(16, 0, 512), Single(17, 0, 256)], KeyPrefix(key), 512)
    ensures column.queue == [] && !Found(column.queue + [column.index], KeyPrefix(key), 512)
  {
    hide Single, Holds, Growing, Placed, Found, KeyOf, KeyPrefix, Top50, Word, LastAddress;
    var zero: Hash := seq(32, i => 0 as byte);
    var other := zero[31 := 1];
    key := other;
    ZeroPrefix(other);
    KeyOfZero();
    SmallAddress();
    ghost var before;
    column, before := PaddedKeyHides(16, 0, 512, 256, map[256 := zero, 512 := other]);
  }

  lemma SmallAddress()
    ensures 512 <= LastAddress(16) && 256 <= LastAddress(17)
  {
    Ten();
    Wider(10, AddressBits(16));
    Wider(10, AddressBits(17));
  }

  lemma ZeroPrefix(key: Hash)
    requires forall i :: 0 <= i < 8 ==> key[i] == 0
    ensures KeyPrefix(key) == 0 && Top50(0) == 0 && Word(0)
  {
    hide Right, Up;
    ZeroBE(key[..8]);
    RightZero(14);
    UpZero(14);
  }

  lemma {:induction false} ZeroBE(b: seq<byte>)
    requires forall i :: 0 <= i < |b| ==> b[i] == 0
    ensures BE(b) == 0
  {
    if b != [] {
      ZeroBE(b[..|b| - 1]);
    }
  }

  lemma {:induction false} RightZero(s: nat)
    ensures Right(0, s) == 0
  {
    if s > 0 {
      RightZero(s - 1);
    }
  }

  lemma {:induction false} UpZero(s: nat)
    ensures Up(0, s) == 0
  {
    if s > 0 {
      UpZero(s - 1);
    }
  }

  lemma KeyOfZero()
    ensures KeyOf(0) == seq(32, i => 0 as byte)
  {
    ZeroBytes(8);
  }

  lemma {:induction false} ZeroBytes(w: nat)
    ensures BigEndian(0, w) == seq(w, i => 0 as byte)
  {
    if w > 0 {
      ZeroBytes(w - 1);
    }
  }

  lemma Ten()
    ensures Pow2(10) == 1024
  {
    EightMore(2);
    assert Pow2(2) == 2 * Pow2(1) == 4 * Pow2(0);
  }

  lemma CoversMore(ts: seq<IndexTable>, t: IndexTable)
    ensures Covers(ts, ts + [t])
  {
    forall p, a | Found(ts, p, a)
      ensures Found(ts + [t], p, a)
    {
      var j :| 0 <= j < |ts| && Holds(ts[j], p, a);
      assert (ts + [t])[j] == ts[j];
    }
  }

  lemma CoversSelf(ts: seq<IndexTable>)
    ensures Covers(ts, ts)
  {
  }

  lemma CoversTwice(ts: seq<IndexTable>, us: seq<IndexTable>, vs: seq<IndexTable>)
    requires Covers(ts, us) && Covers(us, vs)
    ensures Covers(ts, vs)
  {
  }

  lemma ReplaceLast(ts: seq<IndexTable>, t: IndexTable, u: IndexTable, prefix: nat, address: nat)
    requires Keeps(t, u) && Holds(u, prefix, address)
    ensures Covers(ts + [t], ts + [u]) && Found(ts + [u], prefix, address)
  {
    hide Holds, Keeps;
    var before, after := ts + [t], ts + [u];
    assert after[|ts|] == u;
    forall p, a | Found(before, p, a)
      ensures Found(after, p, a)
    {
      var j :| 0 <= j < |before| && Holds(before[j], p, a);
      if j == |ts| {
        KeepsHolds(t, u, p, a);
      } else {
        assert after[j] == before[j];
      }
    }
  }

  lemma GrowingReplaced(q: seq<IndexTable>, t: IndexTable, u: IndexTable)
    requires Growing(q + [t]) && u.bits == t.bits && u.Valid()
    ensures Growing(q + [u])
  {
    var a, b := q + [t], q + [u];
    forall i | 0 <= i < |b|
      ensures b[i].bits == a[i].bits && b[i].Valid()
    {
    }
  }

  /** Addresses of an older table fit a newer one. */
  lemma Narrower(ts: seq<IndexTable>)
    requires Growing(ts) && |ts| > 1
    ensures LastAddress(ts[0].bits) <= LastAddress(ts[|ts| - 1].bits) && ts[|ts| - 1].Valid()
  {
    Wider(AddressBits(ts[0].bits), AddressBits(ts[|ts| - 1].bits));
  }

  lemma PrefixIsWord(key: Hash)
    ensures Word(KeyPrefix(key))
  {
    SixBytes(key);
  }

  lemma GrowingMore(ts: seq<IndexTable>, t: IndexTable)
    requires Growing(ts) && ts != [] && t.bits == ts[|ts| - 1].bits + 1 && t.pages == map[]
    ensures Growing(ts + [t])
  {
    var us := ts + [t];
    forall i | 0 <= i < |ts|
      ensures us[i] == ts[i] && us[i].bits < t.bits
    {
      assert i < |ts| - 1 ==> ts[i].bits < ts[|ts| - 1].bits;
    }
  }

  /** A recovered key is only ever found where a stored key has nothing but zeros behind its top fifty bits. */
  lemma MatchIsPadded(t: IndexTable, keys: KeyMap, key: Hash, i: nat)
    requires Padded(key) && Matches(t, keys, key, i)
    ensures !NonePadded(keys)
  {
    hide Padded;
    var a := Address(t.Page(ChunkIndex(KeyPrefix(key), t.bits))[i], t.bits);
    PaddedByBytes(key, keys[a]);
  }
}
