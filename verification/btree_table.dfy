/** A B-tree column: committing change sets through the header and the tree, and reading keys back. */
module BTreeTables {
  import opened Keys
  import opened Entries
  import opened Trees
  import opened Nodes
  import opened Stores
  import opened Pairs
  import opened Rebalancing
  import opened Kids
  import opened Changes
  import opened Gaps
  import opened BTrees

  /** First offset of the first value table. */
  const HEADER_ADDRESS: Address := 256

  // ----- sorting a change set by key, keeping the order of changes to one key

  function InsertStable(s: seq<Change>, c: Change): seq<Change> {
    if s == [] || !Less(c.key, s[|s| - 1].key) then s + [c]
    else InsertStable(s[..|s| - 1], c) + [s[|s| - 1]]
  }

  function StableSort(cs: seq<Change>): seq<Change> {
    if cs == [] then [] else InsertStable(StableSort(cs[..|cs| - 1]), cs[|cs| - 1])
  }

  lemma {:induction false} InsertStableKeys(s: seq<Change>, c: Change)
    ensures multiset(InsertStable(s, c)) == multiset(s) + multiset{c}
  {
    hide Less;
    if s != [] && Less(c.key, s[|s| - 1].key) {
      var f, last := s[..|s| - 1], s[|s| - 1];
      InsertStableKeys(f, c);
      assert s == f + [last] && InsertStable(s, c) == InsertStable(f, c) + [last];
    } else {
      assert InsertStable(s, c) == s + [c];
    }
  }

  lemma {:induction false} InsertStableSorted(s: seq<Change>, c: Change)
    requires SortedChanges(s)
    ensures SortedChanges(InsertStable(s, c))
  {
    hide Less;
    if s == [] {
    } else if !Less(c.key, s[|s| - 1].key) {
      LessTotal(c.key, s[|s| - 1].key);
      forall i | 0 <= i < |s| ensures Less(s[i].key, c.key) || s[i].key == c.key {
        if i < |s| - 1 && s[i].key != s[|s| - 1].key && s[|s| - 1].key != c.key {
          LessTransitive(s[i].key, s[|s| - 1].key, c.key);
        }
      }
    } else {
      var f, last := s[..|s| - 1], s[|s| - 1];
      InsertStableSorted(f, c);
      InsertStableKeys(f, c);
      var r := InsertStable(f, c);
      forall i | 0 <= i < |r| ensures Less(r[i].key, last.key) || r[i].key == last.key {
        assert r[i] in multiset(f) + multiset{c};
        assert r[i] in f || r[i] == c;
      }
    }
  }

  lemma UpdateSwap(m: map<Key, Value>, c: Change, d: Change)
    requires c.key != d.key
    ensures Update(Update(m, c), d) == Update(Update(m, d), c)
  {
  }

  lemma {:induction false} InsertStableFold(m: map<Key, Value>, s: seq<Change>, c: Change)
    ensures UpdateAll(m, InsertStable(s, c)) == Update(UpdateAll(m, s), c)
  {
    hide Less;
    var r := InsertStable(s, c);
    if s == [] || !Less(c.key, s[|s| - 1].key) {
      assert r[..|r| - 1] == s;
    } else {
      var f, last := s[..|s| - 1], s[|s| - 1];
      assert r[..|r| - 1] == InsertStable(f, c);
      InsertStableFold(m, f, c);
      LessAsymmetric(c.key, last.key);
      UpdateSwap(UpdateAll(m, f), c, last);
    }
  }

  /** Sorting by key does not change what a batch does to a map. */
  lemma {:induction false} StableSortFold(m: map<Key, Value>, cs: seq<Change>)
    ensures SortedChanges(StableSort(cs)) && UpdateAll(m, StableSort(cs)) == UpdateAll(m, cs)
  {
    if cs != [] {
      var f := cs[..|cs| - 1];
      StableSortFold(m, f);
      InsertStableSorted(StableSort(f), cs[|cs| - 1]);
      InsertStableFold(m, StableSort(f), cs[|cs| - 1]);
    }
  }

  // ----- lookup

  lemma {:induction false} MapOfEntry(s: seq<Entry>, i: nat)
    requires Sorted(s) && i < |s|
    ensures s[i].key in MapOf(s) && MapOf(s)[s[i].key] == s[i].value
  {
    if i > 0 {
      MapOfEntry(s[1..], i - 1);
      LessAsymmetric(s[0].key, s[i].key);
    }
  }

  lemma GapMisses(a: seq<Entry>, key: Key, b: seq<Entry>)
    requires Gap(a, key, b)
    ensures forall i :: 0 <= i < |a| ==> a[i].key != key
    ensures forall i :: 0 <= i < |b| ==> b[i].key != key
  {
    LessIrreflexive(key);
  }

  ghost predicate HasKey(s: seq<Entry>, key: Key) {
    exists j :: 0 <= j < |s| && s[j].key == key
  }

  lemma KeyBetween(a: seq<Entry>, k: seq<Entry>, b: seq<Entry>, key: Key)
    requires Gap(a, key, b) && HasKey(a + k + b, key)
    ensures HasKey(k, key)
  {
    hide Less;
    GapMisses(a, key, b);
    var s := a + k + b;
    var j :| 0 <= j < |s| && s[j].key == key;
    assert |a| <= j < |a| + |k|;
    assert k[j - |a|] == s[j];
  }

  /** A node's sequence around child `i`. */
  lemma AroundKid(t: Tree, i: nat, key: Key)
    requires IsNode(t) && i <= |t.seps| && Sorted(InOrder(t))
    requires i > 0 ==> Less(t.seps[i - 1].key, key)
    requires i < |t.seps| ==> Less(key, t.seps[i].key)
    ensures InOrder(t) == Front(t, i) + InOrder(t.kids[i]) + Back(t, i) && Sorted(InOrder(t.kids[i]))
    ensures Gap(Front(t, i), key, Back(t, i))
  {
    hide InOrder, Front, Back, Less, Sorted;
    var a, k, b := Front(t, i), InOrder(t.kids[i]), Back(t, i);
    assert [] + InOrder(t) + [] == InOrder(t);
    GapAtKid([], t, [], i, key);
    assert [] + a == a && b + [] == b;
    SortedParts(a + k, b);
    SortedParts(a, k);
  }

  /** Where the key is found below child `i`, or nowhere. */
  lemma FoundBelow(t: Tree, i: nat, key: Key)
    requires IsNode(t) && i <= |t.seps| && Sorted(InOrder(t))
    requires i > 0 ==> Less(t.seps[i - 1].key, key)
    requires i < |t.seps| ==> Less(key, t.seps[i].key)
    ensures InOrder(t) == Front(t, i) + InOrder(t.kids[i]) + Back(t, i) && Sorted(InOrder(t.kids[i]))
    ensures HasKey(InOrder(t), key) ==> HasKey(InOrder(t.kids[i]), key)
  {
    hide InOrder, Front, Back, Less, Gap, Sorted, HasKey;
    AroundKid(t, i, key);
    if HasKey(InOrder(t), key) {
      KeyBetween(Front(t, i), InOrder(t.kids[i]), Back(t, i), key);
    }
  }

  /** The address a lookup ends at, if the key is present. */
  method GetIn(node: Node, key: Key, h: nat, store: Store, ghost t: Tree) returns (r: Option<Address>, ghost j: nat)
    requires h > 0 && Live(node, t, h, store.cells) && Shape(t, h, 0) && Sorted(InOrder(t))
    ensures r.Some? ==> j < |InOrder(t)| && InOrder(t)[j].key == key
    ensures r.Some? ==> r.value in store.cells && store.cells[r.value] == ValueBlob(InOrder(t)[j].value)
    ensures r.None? ==> !HasKey(InOrder(t), key)
    decreases h
  {
    hide Own, KidsStored, Stored, NoDup, InOrder, Front, Back, Less, Node.Bare, Node.KidsAre, Ptrs, Sorted;
    hide AllBalanced, HasKey;
    var at, i := node.Position(key, Recs(t.seps), Ptrs(t.kids));
    j := 0;
    if at {
      j := SepPosition(t, i);
      r := Some(node.separators[i].value.at);
    } else {
      if i > 0 {
        RecAt(t.seps, i - 1);
      }
      FoundBelow(t, i, key);
      if h > 1 {
        KidReady(t, h, 0, i, store.cells);
        var child := FetchChild(node, i, h, store, t);
        r, j := GetIn(child, key, h - 1, store, t.kids[i]);
        j := j + |Front(t, i)|;
      } else {
        LeafKid(t, 0, i);
        NilOrder();
        assert !HasKey(InOrder(t.kids[i]), key) by { NoKey(key); }
        r := None;
      }
    }
  }

  lemma NoKey(key: Key)
    ensures !HasKey([], key)
  {
  }

  lemma SepPosition(t: Tree, i: nat) returns (j: nat)
    requires IsNode(t) && i < |t.seps|
    ensures j < |InOrder(t)| && InOrder(t)[j] == Item(t.seps[i])
  {
    hide InOrder, Front, Back;
    WithOrder(t, i, i, [], [t.kids[i]]);
    FrontBackEnds(t, i);
    GraftOrder(t, i, One(t.kids[i]));
    j := |Front(t, i) + InOrder(t.kids[i])|;
  }

  class BTreeTable {
    const store: Store
    ghost var tree: Tree

    ghost predicate Valid()
      reads this, store
    {
      && store.Valid() && HEADER_ADDRESS in store.cells && store.cells[HEADER_ADDRESS].Header?
      && Rooted(store.cells, RootOf(store.cells[HEADER_ADDRESS].root), store.cells[HEADER_ADDRESS].depth, tree)
    }

    /** What the column holds, as a map. */
    ghost function Contents(): map<Key, Value>
      reads this
    {
      MapOf(InOrder(tree))
    }

    constructor ()
      ensures Valid() && Contents() == map[] && fresh(store)
    {
      store := new Store(map[0 := Reserved, HEADER_ADDRESS := Header(0, 0)]);
      tree := EmptyTree;
      new;
      EmptyHeld(store.cells);
    }

    /** The column that these entries are. */
    constructor Open(cells: Cells, ghost tree: Tree)
      requires 0 in cells && cells[0] == Reserved && HEADER_ADDRESS in cells && cells[HEADER_ADDRESS].Header?
      requires Rooted(cells, RootOf(cells[HEADER_ADDRESS].root), cells[HEADER_ADDRESS].depth, tree)
      ensures Valid() && fresh(store) && store.cells == cells && this.tree == tree
    {
      hide Rooted;
      store := new Store(cells);
      this.tree := tree;
    }

    /** Commits a change set given in any order; later changes to a key win. */
    method WritePlan(changes: seq<Change>)
      requires Valid()
      modifies this, store
      ensures Valid() && Contents() == UpdateAll(old(Contents()), changes)
      ensures forall a :: a in old(store.cells) && a != HEADER_ADDRESS && a !in old(Own(tree)) ==>
                          a in store.cells && store.cells[a] == old(store.cells[a])
      ensures Neat(old(store.cells), store.cells, old(Own(tree)), Own(tree))
    {
      hide Own, SepsStored, KidsStored, Stored, NoDup, InOrder, ApplyAll, UpdateAll, MapOf, Shape, Sorted, StableSort;
      hide Orphan;
      ghost var c, t := store.cells, tree;
      var header := store.cells[HEADER_ADDRESS];
      HeaderApart(c, RootOf(header.root), header.depth, t);
      var sorted := StableSort(changes);
      StableSortFold(MapOf(InOrder(t)), changes);
      var btree := new BTree(RootOf(header.root), header.depth);
      ghost var u := btree.WriteSortedChanges(sorted, store, t);
      ApplyAllIsUpdateAll(InOrder(t), sorted);
      assert HEADER_ADDRESS !in Own(u);
      var written := Header(btree.rootIndex.value, btree.depth);
      NotReserved(store.cells, u);
      RootedNonzero(store.cells, btree.rootIndex, btree.depth, u);
      if written != header {
        HeaderWrite(store.cells, written, btree.rootIndex, btree.depth, u);
        store.cells := store.cells[HEADER_ADDRESS := written];
      }
      tree := u;
    }

    method Get(key: Key) returns (r: Option<Value>)
      requires Valid()
      ensures r == if key in Contents() then Some(Contents()[key]) else None
    {
      hide Own, SepsStored, KidsStored, Stored, NoDup, InOrder, MapOf, Less, Node.SepsAre, Node.KidsAre, Node.Bare;
      hide Recs, Ptrs;
      var header := store.cells[HEADER_ADDRESS];
      if header.root == 0 {
        EmptyHeld(store.cells);
        MapOfKeys(InOrder(tree), key);
        return None;
      }
      var h := header.depth + 1;
      var root := FetchRoot(RootOf(header.root), h, store, tree);
      ShapeLower(tree, h, RootLo(h), 0);
      var at;
      ghost var j;
      at, j := GetIn(root, key, h, store, tree);
      if at.Some? {
        MapOfEntry(InOrder(tree), j);
        r := Some(store.cells[at.value].bytes);
      } else {
        MapOfKeys(InOrder(tree), key);
        r := None;
      }
    }
  }

  function RootOf(root: Address): Option<Address> {
    if root == 0 then None else Some(root)
  }

  lemma {:induction false} TypedOwn(c: Cells, t: Tree, a: Address)
    requires Stored(c, t) && a in c && c[a].Header?
    ensures a !in Own(t)
    decreases t, 1
  {
    if t.Branch? {
      TypedSeps(c, t.seps, a);
      TypedKids(c, t.kids, a);
    }
  }

  lemma {:induction false} TypedSeps(c: Cells, ss: seq<Sep>, a: Address)
    requires SepsStored(c, ss) && a in c && c[a].Header?
    ensures a !in OwnSeps(ss)
  {
    if ss != [] {
      assert forall i :: 0 <= i < |ss[1..]| ==> ss[1..][i] == ss[i + 1];
      TypedSeps(c, ss[1..], a);
    }
  }

  lemma {:induction false} TypedKids(c: Cells, ts: seq<Tree>, a: Address)
    requires KidsStored(c, ts) && a in c && c[a].Header?
    ensures a !in OwnKids(ts)
    decreases ts, 0
  {
    if ts != [] {
      TypedOwn(c, ts[0], a);
      assert forall i :: 0 <= i < |ts[1..]| ==> ts[1..][i] == ts[i + 1];
      TypedKids(c, ts[1..], a);
    }
  }

  lemma HeaderApart(c: Cells, root: Option<Address>, depth: nat, t: Tree)
    requires Rooted(c, root, depth, t) && 0 in c && HEADER_ADDRESS in c && c[HEADER_ADDRESS].Header?
    ensures HEADER_ADDRESS !in Own(t)
  {
    hide InOrder, Own, Shape;
    if root.None? {
      EmptyHeld(c);
    } else {
      TypedOwn(c, t, HEADER_ADDRESS);
    }
  }

  lemma RootedNonzero(c: Cells, root: Option<Address>, depth: nat, t: Tree)
    requires Rooted(c, root, depth, t) && root.Some? && 0 !in Own(t)
    ensures root.value != 0 && RootOf(root.value) == root
  {
    OwnAddr(t);
  }

  lemma HeaderWrite(c: Cells, header: Blob, root: Option<Address>, depth: nat, t: Tree)
    requires Rooted(c, root, depth, t) && root.Some? && HEADER_ADDRESS !in Own(t)
    ensures Rooted(c[HEADER_ADDRESS := header], root, depth, t)
  {
    hide InOrder, Own, Shape, Stored;
    StoredFrame(c, c[HEADER_ADDRESS := header], t);
  }
}
