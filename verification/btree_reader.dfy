/** A database of one B-tree column: from a commit through log and tables to the lookup of a key, and past a crash. */
module BTreeReaders {
  import opened Keys
  import opened Entries
  import opened Trees
  import opened Stores
  import opened BTrees
  import opened BTreeTables
  import opened Databases
  import opened BTreeSlots
  import opened Recovery
  import NodeCodec
  import Changes
  import Rebalancing
  import Iteration
  import R = Records
  import C = Commits
  import L = LogStages

  /** How many bytes a record takes in the log. */
  type Size = n: nat | n > 0 witness 1

  // Walking down.

  /** Entries as a walk meets them: stored forms in the slots, and nothing at address 0. */
  ghost predicate Readable(tables: R.Tables, o: R.Overlays, c: Cells) {
    Shows(R.ViewOf(tables, o), c) && AllFit(c) && 0 in c && c[0] == Reserved
  }

  lemma Readings(tables: R.Tables, o: R.Overlays, c: Cells, a: Address)
    requires Readable(tables, o, c) && a in c && c[a] != Reserved
    ensures R.See(tables, o, R.Slot(SlotFor(a))) == BytesOf(c[a]) && FieldsFit(c[a])
  {
    hide R.See, SlotFor, BytesOf, FieldsFit;
    assert R.ViewOf(tables, o)(R.Slot(SlotFor(a))) == BytesOf(c[a]);
  }

  /** The node at an address, decoded from its slot. */
  method ReadNodeAt(tables: R.Tables, o: R.Overlays, a: Address, ghost h: nat, ghost c: Cells, ghost t: Tree)
    returns (node: Blob)
    requires Readable(tables, o, c) && h > 0 && t.Branch? && t.addr == a && Stored(c, t) && Shape(t, h, 0)
    ensures node == NodeBlob(Recs(t.seps), Ptrs(t.kids))
  {
    hide R.See, Storable, BytesOf, NodeCodec.Decode, Recs, Ptrs, Shows, AllFit, Shape;
    Readings(tables, o, c, a);
    NodeStorable(c, t, h);
    NodeReads(Recs(t.seps), Ptrs(t.kids));
    var read := NodeCodec.ReadNode(R.See(tables, o, R.Slot(SlotFor(a))));
    node := read.value;
  }

  /** The value of a key below a node, read slot by slot on the way down. */
  method GetBelow(tables: R.Tables, o: R.Overlays, key: Key, a: Address, h: nat, ghost c: Cells, ghost t: Tree)
    returns (r: Option<Value>, ghost j: nat)
    requires Readable(tables, o, c) && h > 0 && t.Branch? && t.addr == a && Stored(c, t)
    requires Shape(t, h, 0) && Sorted(InOrder(t))
    ensures r.Some? ==> j < |InOrder(t)| && InOrder(t)[j] == Entry(key, r.value)
    ensures r.None? ==> !HasKey(InOrder(t), key)
    decreases h
  {
    hide Readable, R.See, InOrder, Front, Back, Less, Sorted, HasKey, AllBalanced, KidsStored, BytesOf, FieldsFit;
    var node := ReadNodeAt(tables, o, a, h, c, t);
    var at, i := Iteration.PositionIn(node, key);
    j := 0;
    if at {
      Iteration.SepAt(t, i, c);
      j := SepPosition(t, i);
      Readings(tables, o, c, node.seps[i].at);
      ValueBytes(t.seps[i].value);
      r := Some(R.See(tables, o, R.Slot(SlotFor(node.seps[i].at))));
    } else {
      if i > 0 {
        Changes.RecAt(t.seps, i - 1);
      }
      FoundBelow(t, i, key);
      if node.kids[i].None? {
        Iteration.EndOfDescent(t, h, i);
        NoKey(key);
        r := None;
      } else {
        Iteration.KidAt(t, h, i, c);
        r, j := GetBelow(tables, o, key, node.kids[i].value, h - 1, c, t.kids[i]);
        j := j + |Front(t, i)|;
      }
    }
  }

  /** Entries of the one are entries of the other. */
  ghost predicate Among(c: Cells, d: Cells) {
    forall a :: a in c ==> a in d && d[a] == c[a]
  }

  lemma StoredMore(c: Cells, d: Cells, t: Tree)
    requires Stored(c, t) && Among(c, d)
    ensures Stored(d, t)
  {
    hide Own, Stored;
    StoredFrame(c, d, t);
  }

  /** The entries of the tree below a node, read off their slots and added to others. */
  method LoadBelow(tables: R.Tables, a: Address, h: nat, cells: Cells, ghost c: Cells, ghost t: Tree) returns (m: Cells)
    requires Readable(tables, R.NoOverlays, c) && h > 0 && t.Branch? && t.addr == a && Stored(c, t)
    requires Shape(t, h, 0) && Among(cells, c)
    ensures Among(cells, m) && Among(m, c) && Stored(m, t)
    decreases h, 2
  {
    hide Readable, Shape, SepsStored, KidsStored, Recs, Ptrs;
    var node := ReadNodeAt(tables, R.NoOverlays, a, h, c, t);
    m := LoadValues(tables, node.seps, cells[a := node], c, t.seps);
    ghost var n := m;
    m := LoadKids(tables, node.kids, h, m, c, t);
    SepsMore(n, m, t.seps);
  }

  lemma SepsMore(c: Cells, d: Cells, ss: seq<Sep>)
    requires SepsStored(c, ss) && Among(c, d)
    ensures SepsStored(d, ss)
  {
  }

  lemma KidsMore(c: Cells, d: Cells, ts: seq<Tree>)
    requires KidsStored(c, ts) && Among(c, d)
    ensures KidsStored(d, ts)
  {
    hide Stored;
    forall i | 0 <= i < |ts|
      ensures Stored(d, ts[i])
    {
      StoredMore(c, d, ts[i]);
    }
  }

  method LoadValues(tables: R.Tables, seps: seq<SepRec>, cells: Cells, ghost c: Cells, ghost ss: seq<Sep>)
    returns (m: Cells)
    requires Readable(tables, R.NoOverlays, c) && Among(cells, c) && seps == Recs(ss) && SepsStored(c, ss)
    ensures Among(cells, m) && Among(m, c) && SepsStored(m, ss)
  {
    hide Readable, R.See, BytesOf, FieldsFit;
    m := cells;
    var i := 0;
    while i < |seps|
      invariant i <= |seps| && Among(cells, m) && Among(m, c) && SepsStored(m, ss[..i])
    {
      var at := seps[i].at;
      Readings(tables, R.NoOverlays, c, at);
      ValueBytes(ss[i].value);
      m := m[at := ValueBlob(R.See(tables, R.NoOverlays, R.Slot(SlotFor(at))))];
      i := i + 1;
    }
    assert ss[..i] == ss;
  }

  method LoadKids(tables: R.Tables, kids: seq<Option<Address>>, h: nat, cells: Cells, ghost c: Cells, ghost t: Tree)
    returns (m: Cells)
    requires Readable(tables, R.NoOverlays, c) && Among(cells, c) && h > 0 && Shape(t, h, 0)
    requires t.Branch? && Iteration.BodyStored(c, t) && kids == Ptrs(t.kids)
    ensures Among(cells, m) && Among(m, c) && KidsStored(m, t.kids)
    decreases h, 1
  {
    hide Readable, Shape, Iteration.BodyStored, Stored;
    m := cells;
    var i := 0;
    while i < |kids|
      invariant i <= |kids| && Among(cells, m) && Among(m, c) && KidsStored(m, t.kids[..i])
    {
      ghost var was := m;
      if kids[i].Some? {
        KidStored(t, h, i, c);
        m := LoadBelow(tables, kids[i].value, h - 1, m, c, t.kids[i]);
        KidsMore(was, m, t.kids[..i]);
      } else {
        NilStored(m);
      }
      assert t.kids[..i + 1] == t.kids[..i] + [t.kids[i]];
      i := i + 1;
    }
    assert t.kids[..i] == t.kids;
  }

  lemma KidStored(t: Tree, h: nat, i: nat, c: Cells)
    requires Iteration.BodyStored(c, t) && h > 0 && Shape(t, h, 0) && i < |t.kids| && Ptrs(t.kids)[i].Some?
    ensures var k := t.kids[i];
      h > 1 && k.Branch? && Some(k.addr) == Ptrs(t.kids)[i] && Stored(c, k) && Shape(k, h - 1, 0)
  {
    Iteration.KidAt(t, h, i, c);
  }

  lemma NilStored(c: Cells)
    ensures Stored(c, Nil)
  {
  }

  /** The column that the slots hold, its header and all of its tree. */
  method Load(tables: R.Tables, ghost c: Cells, ghost t: Tree) returns (m: Cells)
    requires HoldsColumn(R.StateOf(tables), c, t)
    ensures HoldsColumn(R.StateOf(tables), m, t)
  {
    hide Rooted, SlotFor, BytesOf, FieldsFit, ReadHeader, R.See;
    NoOverlay(tables, c);
    Readings(tables, R.NoOverlays, c, HEADER_ADDRESS);
    HeaderReads(c[HEADER_ADDRESS].root, c[HEADER_ADDRESS].depth) by {
      HeaderStorable(c[HEADER_ADDRESS], c[HEADER_ADDRESS]);
    }
    var (root, depth) := ReadHeader(R.See(tables, R.NoOverlays, R.Slot(SlotFor(HEADER_ADDRESS))));
    m := map[0 := Reserved, HEADER_ADDRESS := Header(root, depth)];
    RootedBelow(c, root, depth, t);
    if root != 0 {
      ghost var n := m;
      m := LoadBelow(tables, root, depth + 1, m, c, t);
      assert 0 in n && HEADER_ADDRESS in n;
    }
    RootedIn(c, m, root, depth, t);
  }

  lemma NoOverlay(tables: R.Tables, c: Cells)
    requires Shows(R.StateOf(tables), c) && AllFit(c) && 0 in c && c[0] == Reserved
    ensures Readable(tables, R.NoOverlays, c)
  {
    hide BytesOf, FieldsFit, SlotFor;
    forall a | a in c && a != 0
      ensures R.ViewOf(tables, R.NoOverlays)(R.Slot(SlotFor(a))) == BytesOf(c[a])
    {
      assert R.StateOf(tables)(R.Slot(SlotFor(a))) == BytesOf(c[a]);
    }
  }

  lemma RootedBelow(c: Cells, root: Address, depth: nat, t: Tree)
    requires Rooted(c, RootOf(root), depth, t)
    ensures t.Branch? && Shape(t, depth + 1, 0) && Sorted(InOrder(t))
    ensures if root == 0 then t == EmptyTree else t.addr == root && Stored(c, t)
  {
    hide InOrder, Own, Stored, Sorted;
    Rebalancing.ShapeLower(t, depth + 1, RootLo(depth + 1), 0);
  }

  lemma RootedIn(c: Cells, m: Cells, root: Address, depth: nat, t: Tree)
    requires Rooted(c, RootOf(root), depth, t) && (root != 0 ==> Stored(m, t))
    ensures Rooted(m, RootOf(root), depth, t)
  {
    hide InOrder, Own, Stored, Sorted, Shape, NoDup;
  }

  // The database and its column.

  /** Every state the records lead through has had a column. */
  ghost predicate HeldThrough(p: Past) {
    forall n :: 0 <= n <= |p.history| ==> HeldAfter(p, n)
  }

  ghost predicate HeldAfter(p: Past, n: nat)
    requires n <= |p.history|
  {
    HoldsSome(R.StateOf(R.EnactAll(p.start, p.history[..n])))
  }

  /** The column is as the newest state of the log and the tables has it. */
  ghost predicate Attached(db: Db, table: BTreeTable)
    reads db, db.log, table, table.store
  {
    && db.Valid() && table.Valid() && db.lookup == LookupTree && HeldThrough(db.past)
    && HoldsColumn(R.StateOf(db.past.Newest()), table.store.cells, table.tree)
  }

  /** A database on tables that hold a column, nothing being logged yet. */
  method Open(sync: bool, syncData: bool, tables: R.Tables, first: nat, lastEnacted: nat, cells: Cells, ghost t: Tree)
    returns (db: Db, table: BTreeTable)
    requires first > 0 && HoldsColumn(R.StateOf(tables), cells, t)
    ensures fresh(db) && fresh(db.log) && fresh(table) && fresh(table.store) && db.worker.Idle? && db.commits == []
    ensures Attached(db, table) && table.Contents() == MapOf(InOrder(t)) == db.committed && table.store.cells == cells
    ensures db.past.start == tables && db.past.history == [] && db.syncData == syncData && db.log.sync == sync
    ensures db.log.nextRecordId == db.past.first == first && db.lastEnacted == lastEnacted
  {
    hide CarriedBy, QueueFits, LogFits, L.Stages.Valid, Rooted, InOrder, MapOf, LookupTree, R.Respects, R.EnactAll;
    hide Shows;
    hide AllFit, HoldsSome;
    table := new BTreeTable.Open(cells, t);
    LookupRespects();
    ContentsAre(R.StateOf(tables), cells, t);
    db := new Db(sync, syncData, tables, first, lastEnacted, LookupTree);
    NothingEnacted(tables);
    FirstHeld(db.past, cells, t);
  }

  lemma NothingEnacted(t: R.Tables)
    ensures R.EnactAll(t, []) == t
  {
  }

  lemma FirstHeld(p: Past, c: Cells, t: Tree)
    requires p.history == [] && HoldsColumn(R.StateOf(p.start), c, t)
    ensures HeldThrough(p)
  {
    hide HoldsColumn;
    assert p.history[..0] == [];
    NothingEnacted(p.start);
    assert HeldAfter(p, 0);
  }

  /** A new database with an empty column. */
  method Create(sync: bool, syncData: bool) returns (db: Db, table: BTreeTable)
    ensures fresh(db) && fresh(db.log) && fresh(table) && fresh(table.store) && db.worker.Idle? && db.commits == []
    ensures Attached(db, table) && table.Contents() == map[] == db.committed && db.log.nextRecordId == 1
    ensures db.lastEnacted == 1 && db.log.sync == sync && db.syncData == syncData
  {
    hide LookupTree, InOrder, HeldThrough, SlotFor, BytesOf;
    var cells: Cells := map[0 := Reserved, HEADER_ADDRESS := Header(0, 0)];
    var tables: R.Tables := map[R.Slot(SlotFor(HEADER_ADDRESS)) := BytesOf(Header(0, 0))];
    EmptyColumn(tables, cells);
    db, table := Open(sync, syncData, tables, 1, 1, cells, EmptyTree);
  }

  lemma EmptyColumn(tables: R.Tables, c: Cells)
    requires c == map[0 := Reserved, HEADER_ADDRESS := Header(0, 0)]
    requires tables == map[R.Slot(SlotFor(HEADER_ADDRESS)) := BytesOf(Header(0, 0))]
    ensures HoldsColumn(R.StateOf(tables), c, EmptyTree) && MapOf(InOrder(EmptyTree)) == map[]
  {
    hide SlotFor, BytesOf;
    EmptyHeld(c);
  }

  lemma HeldMore(p: Past, r: R.Record, c: Cells, t: Tree)
    requires HeldThrough(p) && HoldsColumn(R.StateOf(R.Enact(p.Newest(), r)), c, t)
    ensures HeldThrough(p.(history := p.history + [r]))
  {
    hide HoldsColumn, R.Enact, R.EnactAll, HoldsSome;
    var q := p.(history := p.history + [r]);
    EnactAllOne(p.start, p.history, r);
    forall n | 0 <= n <= |q.history|
      ensures HeldAfter(q, n)
    {
      if n <= |p.history| {
        assert q.history[..n] == p.history[..n] && HeldAfter(p, n);
      } else {
        assert q.history[..n] == p.history + [r];
        SomeHeld(R.StateOf(R.Enact(p.Newest(), r)), c, t);
      }
    }
  }

  lemma SomeHeld(v: R.View, c: Cells, t: Tree)
    requires HoldsColumn(v, c, t)
    ensures HoldsSome(v)
  {
    hide HoldsColumn;
  }

  /**
   * The log worker writes its commit to the tree and logs the slots that differ; readers notice nothing. Only where an
   * address or a key is too long for its field nothing is logged.
   */
  method LogBatch(db: Db, table: BTreeTable, size: R.Record -> Size) returns (fits: bool, ghost r: R.Record)
    requires Attached(db, table) && db.worker.Planning?
    modifies db`worker, db`past, db`carried, db.log, table, table.store
    ensures db.Valid() && table.Valid() && (fits <==> AllFit(table.store.cells))
    ensures table.Contents() == UpdateAll(old(table.Contents()), old(db.worker).commit.changes)
    ensures fits ==> Attached(db, table) && db.worker == Logged(old(db.worker).commit)
    ensures fits ==> db.carried == old(db.carried) + [old(db.worker).commit]
    ensures fits ==> db.log.State() == L.Ended(old(db.log.State()), r, size(r))
    ensures fits ==> db.past == old(db.past).(history := old(db.past.history) + [r])
    ensures !fits ==> db.worker == old(db.worker) && db.past == old(db.past) && db.log.State() == old(db.log.State())
    ensures forall k :: db.Get(k) == old(db.Get(k))
  {
    hide CarriedBy, QueueFits, LogFits, L.Stages.Valid, Rooted, InOrder, MapOf, LookupTree, Shows, UpdateAll, SlotsOf;
    hide Carries;
    hide C.Through, R.Enact, R.EnactAll, R.ViewOf, R.StateOf, R.Respects, L.Ended, AllFit, HeldThrough;
    var before := table.store.cells;
    ghost var t, newest := table.tree, db.past.Newest();
    table.WritePlan(db.worker.commit.changes);
    fits := AllFit(table.store.cells);
    r := R.Record(db.log.nextRecordId, map[], map[]);
    if fits {
      var record := R.Record(db.log.nextRecordId, SlotsOf(before, table.store.cells), map[]);
      r := record;
      BTreeCarries(newest, before, t, table.store.cells, table.tree, db.worker.commit, r.id);
      EnactAllOne(db.past.start, db.past.history, r);
      HeldMore(db.past, r, table.store.cells, table.tree);
      db.LogCommit(record, size(record));
    }
  }

  /** What the newest state has, log overlay and tables show. */
  lemma ShownInLog(db: Db, table: BTreeTable)
    requires Attached(db, table)
    ensures Readable(db.tables, db.log.overlays, table.store.cells)
  {
    hide CarriedBy, QueueFits, Rooted, InOrder, MapOf, LookupTree, R.Respects, LogFits, HeldThrough, L.Stages.Valid;
    hide R.See, R.EnactAll, BytesOf, FieldsFit, SlotFor;
    var c := table.store.cells;
    forall a | a in c && a != 0
      ensures R.See(db.tables, db.log.overlays, R.Slot(SlotFor(a))) == BytesOf(c[a])
    {
      db.CellIsNewest(R.Slot(SlotFor(a)));
      assert R.StateOf(db.past.Newest())(R.Slot(SlotFor(a))) == BytesOf(c[a]);
    }
  }

  /** What the column holds is what the log and the tables are read as. */
  lemma AttachedContents(db: Db, table: BTreeTable)
    requires Attached(db, table)
    ensures db.lookup(R.StateOf(db.past.Newest())) == table.Contents()
  {
    hide CarriedBy, QueueFits, LogFits, L.Stages.Valid, Rooted, InOrder, MapOf, LookupTree, HoldsColumn, HeldThrough;
    ContentsAre(R.StateOf(db.past.Newest()), table.store.cells, table.tree);
  }

  /** A key of the tree that log overlay and tables hold: its header is read, then node by node. */
  method GetInTree(tables: R.Tables, o: R.Overlays, key: Key, ghost c: Cells, ghost t: Tree) returns (r: Option<Value>)
    requires Readable(tables, o, c) && Column(c, t)
    ensures r == C.Find(MapOf(InOrder(t)), key)
  {
    hide Readable, R.See, Rooted, InOrder, MapOf, Sorted, Stored, Shape, ReadHeader, BytesOf, FieldsFit, AllFit;
    Readings(tables, o, c, HEADER_ADDRESS);
    HeaderReads(c[HEADER_ADDRESS].root, c[HEADER_ADDRESS].depth) by {
      HeaderStorable(c[HEADER_ADDRESS], c[HEADER_ADDRESS]);
    }
    var (root, depth) := ReadHeader(R.See(tables, o, R.Slot(SlotFor(HEADER_ADDRESS))));
    RootedBelow(c, root, depth, t);
    MapOfKeys(InOrder(t), key);
    if root == 0 {
      EmptyHeld(c);
      return None;
    }
    ghost var j;
    r, j := GetBelow(tables, o, key, root, depth + 1, c, t);
    if r.Some? {
      MapOfEntry(InOrder(t), j);
    }
  }

  /** Reading a key: the commit overlay, else the tree over log overlay and tables. It is the latest committed value. */
  method Get(db: Db, key: Key, ghost table: BTreeTable) returns (r: Option<Value>)
    requires Attached(db, table)
    ensures r == C.Find(db.committed, key)
  {
    hide CarriedBy, QueueFits, LogFits, L.Stages.Valid, Rooted, InOrder, MapOf, LookupTree, R.EnactAll, R.StateOf;
    hide R.ViewOf;
    hide R.Respects, Readable, HeldThrough, Shows, AllFit;
    db.GetIsLatest();
    AttachedContents(db, table);
    LogShows(db.log.State(), db.past, db.tables, db.lastEnacted, db.syncData, db.log.sync, db.lookup);
    ShownInLog(db, table);
    if key in db.overlay {
      r := db.overlay[key].value;
    } else {
      r := GetInTree(db.tables, db.log.overlays, key, table.store.cells, table.tree);
    }
    assert db.Get(key) == C.Find(db.committed, key);
  }

  // Logging what is queued, and shutting down.

  /** Takes the oldest commit through planning, logging and cleaning. */
  method ProcessCommit(db: Db, table: BTreeTable, size: R.Record -> Size) returns (fits: bool)
    requires Attached(db, table) && db.worker.Idle? && db.commits != []
    modifies db`commits, db`worker, db`past, db`carried, db`overlay, db.log, table, table.store
    ensures db.Valid() && table.Valid() && (fits <==> AllFit(table.store.cells))
    ensures fits ==> Attached(db, table) && db.worker.Idle? && db.commits == old(db.commits)[1..]
    ensures fits ==> db.carried == old(db.carried) + [old(db.commits)[0]]
    ensures SameBehind(old(db.log.State()), db.log.State())
    ensures fits ==> AddsSame(old(db.past.history), db.past.history, old(L.RecordsIn(db.log.appending)),
                              L.RecordsIn(db.log.appending))
    ensures forall k :: db.Get(k) == old(db.Get(k))
  {
    hide CarriedBy, QueueFits, LogFits, L.Stages.Valid, Rooted, InOrder, LookupTree, Shows, UpdateAll, AllFit;
    hide HeldThrough;
    hide C.Through, R.EnactAll, R.ViewOf, R.StateOf, R.Respects, L.Ended, HoldsColumn;
    hide AddsSame;
    ghost var r;
    AddsNone(db.past.history, L.RecordsIn(db.log.appending));
    var _ := db.PopCommit();
    fits, r := LogBatch(db, table, size);
    if fits {
      L.EndedFields(old(db.log.State()), r, size(r));
      AddsMore(old(db.past.history), old(db.past.history), old(L.RecordsIn(db.log.appending)),
               old(L.RecordsIn(db.log.appending)), r);
      db.CleanCommit();
    }
  }

  /** Logs every commit still queued, in order. */
  method ProcessCommits(db: Db, table: BTreeTable, size: R.Record -> Size) returns (fits: bool)
    requires Attached(db, table) && db.worker.Idle?
    modifies db`commits, db`worker, db`past, db`carried, db`overlay, db.log, table, table.store
    ensures db.Valid() && table.Valid() && (fits <==> AllFit(table.store.cells))
    ensures fits ==> Attached(db, table) && db.worker.Idle? && db.commits == []
    ensures fits ==> db.carried == old(db.carried + db.commits)
    ensures SameBehind(old(db.log.State()), db.log.State())
    ensures fits ==> AddsSame(old(db.past.history), db.past.history, old(L.RecordsIn(db.log.appending)),
                              L.RecordsIn(db.log.appending))
    ensures forall k :: db.Get(k) == old(db.Get(k))
  {
    hide CarriedBy, QueueFits, LogFits, L.Stages.Valid, Rooted, InOrder, LookupTree, Shows, AllFit, HeldThrough;
    hide C.Through, R.EnactAll, R.ViewOf, R.StateOf, R.Respects;
    hide AddsSame;
    fits := true;
    AddsNone(db.past.history, L.RecordsIn(db.log.appending));
    while fits && db.commits != []
      invariant db.Valid() && table.Valid() && (fits <==> AllFit(table.store.cells))
      invariant fits ==> Attached(db, table) && db.worker.Idle?
      invariant fits ==> db.carried + db.commits == old(db.carried + db.commits)
      invariant SameBehind(old(db.log.State()), db.log.State())
      invariant fits ==> AddsSame(old(db.past.history), db.past.history, old(L.RecordsIn(db.log.appending)),
                                  L.RecordsIn(db.log.appending))
      invariant forall k :: db.Get(k) == old(db.Get(k))
      decreases fits, |db.commits|
    {
      ghost var commits, h, f := db.commits, db.past.history, L.RecordsIn(db.log.appending);
      fits := ProcessCommit(db, table, size);
      assert commits == [commits[0]] + commits[1..];
      if fits {
        AddsTwice(old(db.past.history), h, db.past.history, old(L.RecordsIn(db.log.appending)), f,
                  L.RecordsIn(db.log.appending));
      }
    }
  }

  /**
   * The shutdown sequence, whatever is queued, logged and enacted: the column holds every commit at its end, and is in
   * the flushed tables and the one log file left.
   */
  method Shutdown(db: Db, table: BTreeTable, size: R.Record -> Size) returns (fits: bool)
    requires Attached(db, table) && db.worker.Idle? && !db.log.syncing
    modifies db`tables, db`lastEnacted, db`commits, db`worker, db`past, db`carried, db`overlay, db.log
    modifies table, table.store
    ensures db.Valid() && table.Valid() && (fits <==> AllFit(table.store.cells))
    ensures fits ==> Attached(db, table) && db.worker.Idle? && db.commits == [] && ShutDown(db.log.State())
    ensures fits ==> db.carried == old(db.carried + db.commits) && table.Contents() == db.committed
    ensures fits ==> R.EnactAll(db.tables, L.RecordsIn(db.log.flushing)) == db.past.Newest()
    ensures fits ==> old(db.past.history) + L.RecordsIn(db.log.flushing) == db.past.history
    ensures forall k :: db.Get(k) == old(db.Get(k))
  {
    hide CarriedBy, QueueFits, LogFits, L.Stages.Valid, Rooted, InOrder, MapOf, LookupTree, Shows, AllFit, HeldThrough;
    hide C.Through, R.EnactAll, R.ViewOf, R.StateOf, R.Respects;
    db.Settle();
    fits := ProcessCommits(db, table, size);
    if fits {
      SameHeld(db.past);
      db.Finish();
      AttachedContents(db, table);
    }
  }

  lemma SameHeld(p: Past)
    ensures forall q: Past :: q.start == p.start && q.history == p.history ==> (HeldThrough(q) <==> HeldThrough(p))
  {
    hide HoldsSome, R.EnactAll;
    forall q: Past | q.start == p.start && q.history == p.history
      ensures HeldThrough(q) <==> HeldThrough(p)
    {
      assert forall n :: 0 <= n <= |p.history| ==> HeldAfter(q, n) == HeldAfter(p, n);
    }
  }

  // Starting again.

  /** After a crash the slots hold a column of whole commits, the oldest and all those of synced log files. */
  lemma BTreeRecovery(db: Db, table: BTreeTable, image: R.Tables, ims: seq<FileImage>) returns (last: nat, c: Cells,
                      t: Tree)
    requires Attached(db, table) && db.syncData && db.log.sync
    requires AllSurvive(FilesOf(db.log.State()), ims) && Reopened(ims).Some? && !StartsLate(ims)
    requires TornTables(image, db.past, db.log.State())
    ensures Recovers(db.log.State(), db.past, image, Reopened(ims).value, last)
    ensures KeepsCommits(db, R.EnactAll(image, Reopened(ims).value), last)
    ensures HoldsColumn(R.StateOf(R.EnactAll(image, Reopened(ims).value)), c, t)
    ensures MapOf(InOrder(t)) == db.lookup(R.StateOf(R.EnactAll(image, Reopened(ims).value)))
  {
    hide L.Stages.Valid, LogFits, QueueFits, CarriedBy, TornTables, Reopened, StartsLate, AllSurvive, FilesOf;
    hide R.Respects;
    hide KeepsCommits, Recovers, R.EnactAll, LookupTree, Rooted, R.At, R.StateOf, InOrder, MapOf, HoldsColumn, Ignores;
    hide AlikeBut;
    LookupRespects();
    last := CommitsRecovered(db, image, ims);
    var v, w := R.StateOf(R.EnactAll(image, Reopened(ims).value)), R.StateOf(R.EnactAll(db.past.start,
                          db.past.history[..last]));
    assert HeldAfter(db.past, last);
    c, t :| HoldsColumn(w, c, t);
    ButSlots(v, w, db.past.missed.Keys);
    SlotsHold(w, v, c, t) by { SlotsBack(v, w); }
    ContentsAre(v, c, t);
  }

  lemma SlotsBack(f: R.View, g: R.View)
    requires SameSlots(f, g)
    ensures SameSlots(g, f)
  {
  }

  /**
   * Opens the files a crash has left, replays them, and starts a database on the result. It fails exactly on a log file
   * too short to open; otherwise the new database holds whole commits, as above, and is fit to go on.
   */
  method Restart(ghost was: Db, ghost table: BTreeTable, image: R.Tables, ims: seq<FileImage>, sync: bool,
                 syncData: bool)
    returns (started: Option<(Db, BTreeTable)>, ghost last: nat)
    requires Attached(was, table) && was.syncData && was.log.sync
    requires AllSurvive(FilesOf(was.log.State()), ims) && !StartsLate(ims)
    requires TornTables(image, was.past, was.log.State())
    ensures started.None? <==> Reopened(ims).None?
    ensures started.Some? ==> Attached(started.value.0, started.value.1) && fresh(started.value.0)
    ensures started.Some? ==> fresh(started.value.1)
    ensures started.Some? ==> Recovers(was.log.State(), was.past, image, Reopened(ims).value, last)
    ensures started.Some? ==> last <= |was.carried|
    ensures started.Some? ==>
      started.value.0.committed == C.UpdateQueue(was.lookup(R.StateOf(was.past.start)), was.carried[..last])
    ensures started.Some? && Reopened(ims).value != [] ==>
      started.value.0.log.nextRecordId == was.past.first + last == started.value.0.lastEnacted + 1
    ensures started.Some? && Reopened(ims).value == [] ==>
      started.value.0.log.nextRecordId == 1 &&
      started.value.0.lastEnacted == if NonEmpty(ims) == [] then 1 else NonEmpty(ims)[0].first - 1
  {
    hide L.Stages.Valid, LogFits, QueueFits, CarriedBy, TornTables, Reopened, StartsLate, AllSurvive, FilesOf;
    hide R.Respects;
    hide Recovers, R.EnactAll, LookupTree, Rooted, R.At, R.StateOf, InOrder, MapOf, HoldsColumn, HeldThrough;
    hide C.UpdateQueue;
    hide NonEmpty;
    last := 0;
    var found, enacted := ReplayAllLogs(ims);
    if found.None? {
      return None, 0;
    }
    ghost var c, t;
    last, c, t := BTreeRecovery(was, table, image, ims);
    EnactedId(was.log.State(), was.past, was.tables, was.lastEnacted, image, found.value, last);
    FirstPositive(was.log.State(), ims);
    var db, column := Start(image, found.value, enacted, sync, syncData, c, t);
    started := Some((db, column));
  }

  /** The last record replayed is the one that the recovered state is the state after. */
  lemma EnactedId(s: L.Stages, p: Past, tables: R.Tables, enacted: nat, image: R.Tables, records: seq<R.Record>,
                  last: nat)
    requires s.Valid(true) && LogFits(s, p, tables, enacted, true) && Recovers(s, p, image, records, last)
    ensures records != [] ==> records[|records| - 1].id == p.first + last - 1
  {
    hide L.Stages.Valid, L.Stages.All, LogFits, Covered, RecoveredAt, WrittenIn, R.EnactAll, R.At;
    if records != [] {
      LoggedIds(s, p, tables, enacted, last - 1);
      assert records[|records| - 1] == p.history[last - 1];
    }
  }

  lemma FirstPositive(s: L.Stages, ims: seq<FileImage>)
    requires s.Valid(true) && AllSurvive(FilesOf(s), ims)
    ensures NonEmpty(ims) != [] ==> NonEmpty(ims)[0].first > 0
  {
    hide L.Stages.Valid, L.Stages.All, AllSurvive, FilesOf, NonEmpty, Joined, Numbered;
    FilesHoldAll(s);
    IdsOfAll(s);
    NumberedFrom(FilesOf(s), s.nextRecordId - |s.All()|);
    if NonEmpty(ims) != [] {
      var i := FirstFound(FilesOf(s), ims, s.nextRecordId - |s.All()|);
    }
  }

  /** Starts a database on tables that hold a column once the records are replayed over them. */
  method Start(image: R.Tables, records: seq<R.Record>, enacted: nat, sync: bool, syncData: bool, ghost c: Cells,
               ghost t: Tree)
    returns (db: Db, table: BTreeTable)
    requires HoldsColumn(R.StateOf(R.EnactAll(image, records)), c, t)
    ensures fresh(db) && fresh(table) && Attached(db, table) && db.committed == MapOf(InOrder(t))
    ensures db.past.start == R.EnactAll(image, records) && db.worker.Idle? && db.commits == []
    ensures db.log.nextRecordId == (if records == [] then 1 else records[|records| - 1].id + 1)
    ensures db.lastEnacted == enacted && db.log.sync == sync && db.syncData == syncData
  {
    hide Attached, R.EnactAll, R.StateOf, InOrder, MapOf, HoldsColumn;
    var tables := R.EnactAll(image, records);
    var cells := Load(tables, c, t);
    var next := if records == [] then 1 else records[|records| - 1].id + 1;
    db, table := Open(sync, syncData, tables, next, enacted, cells, t);
  }

  /** Opened again after a shutdown, the database holds every commit. */
  method RestartWhole(ghost was: Db, ghost table: BTreeTable, tables: R.Tables, ims: seq<FileImage>, sync: bool,
                      syncData: bool)
    returns (db: Db, column: BTreeTable)
    requires Attached(was, table) && ShutDown(was.log.State()) && was.worker.Idle? && was.commits == []
    requires tables == was.tables && AllWhole(FilesOf(was.log.State()), ims)
    ensures fresh(db) && fresh(column) && Attached(db, column) && db.committed == was.committed
    ensures db.worker.Idle? && db.commits == []
    ensures db.log.nextRecordId == if was.log.flushing.Some? then was.log.nextRecordId else 1
    ensures db.lastEnacted == if was.log.flushing.Some? then was.log.nextRecordId - 1 else 1
  {
    hide L.Stages.Valid, LogFits, QueueFits, CarriedBy, Reopened, FilesOf, R.Respects, AllWhole, NonEmpty;
    hide R.EnactAll, LookupTree, Rooted, R.StateOf, InOrder, MapOf, HoldsColumn, HeldThrough;
    var found, enacted := ReplayAllLogs(ims);
    ShutdownReopens(was, ims);
    AttachedContents(was, table);
    LeftIds(was.log.State(), was.log.sync, ims);
    db, column := Start(tables, found.value, enacted, sync, syncData, table.store.cells, table.tree);
  }

  /** The one log file left by a shutdown has the newest records. */
  lemma LeftIds(s: L.Stages, sync: bool, ims: seq<FileImage>)
    requires s.Valid(sync) && ShutDown(s) && AllWhole(FilesOf(s), ims)
    ensures var rs := L.RecordsIn(s.flushing);
      && (rs != [] <==> s.flushing.Some?) && (rs == [] ==> NonEmpty(ims) == [])
      && (rs != [] ==> rs[|rs| - 1].id == s.nextRecordId - 1)
  {
    hide L.IdsOf, L.AllDistinct, R.OverlayOf, L.Total;
    OneLeft(s, sync);
  }
}
