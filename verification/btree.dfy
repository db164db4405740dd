/** The tree of a column: growing and collapsing its root, committing a batch, and looking up a key. */
module BTrees {
  import opened Keys
  import opened Entries
  import opened Trees
  import opened Nodes
  import opened Stores
  import opened Pairs
  import opened Rebalancing
  import opened Kids
  import opened Changes
  import opened Gaps
  import opened Updates
  import opened Batches

  /** The fewest separators a root may have: none only if it is a leaf. */
  ghost function RootLo(h: nat): nat {
    if h > 1 then 1 else 0
  }

  ghost function RootAddr(root: Option<Address>): Address {
    if root.Some? then root.value else 0
  }

  ghost const EmptyTree: Tree := Branch(0, [], [Nil])

  /** The store holds `t` under this root index; no root index means no entry yet. */
  ghost predicate Rooted(cells: Cells, root: Option<Address>, depth: nat, t: Tree) {
    && t.Branch? && Shape(t, depth + 1, RootLo(depth + 1)) && Sorted(InOrder(t)) && NoDup(Own(t))
    && match root
       case None => t == EmptyTree && depth == 0
       case Some(a) => t.addr == a && Stored(cells, t)
  }

  lemma {:induction false} NotReserved(c: Cells, t: Tree)
    requires Stored(c, t) && 0 in c && c[0] == Reserved
    ensures 0 !in Own(t)
    decreases t, 1
  {
    if t.Branch? {
      SepsNotReserved(c, t.seps);
      KidsNotReserved(c, t.kids);
    }
  }

  lemma {:induction false} SepsNotReserved(c: Cells, ss: seq<Sep>)
    requires SepsStored(c, ss) && 0 in c && c[0] == Reserved
    ensures 0 !in OwnSeps(ss)
  {
    if ss != [] {
      assert forall i :: 0 <= i < |ss[1..]| ==> ss[1..][i] == ss[i + 1];
      SepsNotReserved(c, ss[1..]);
    }
  }

  lemma {:induction false} KidsNotReserved(c: Cells, ts: seq<Tree>)
    requires KidsStored(c, ts) && 0 in c && c[0] == Reserved
    ensures 0 !in OwnKids(ts)
    decreases ts, 0
  {
    if ts != [] {
      NotReserved(c, ts[0]);
      assert forall i :: 0 <= i < |ts[1..]| ==> ts[1..][i] == ts[i + 1];
      KidsNotReserved(c, ts[1..]);
    }
  }

  method FetchRoot(root: Option<Address>, h: nat, store: Store, ghost t: Tree) returns (node: Node)
    requires store.Valid() && h > 0 && Rooted(store.cells, root, h - 1, t)
    ensures fresh(node) && fresh(node.separators) && fresh(node.children)
    ensures Live(node, t, h, store.cells) && t.addr == RootAddr(root) && (root.None? ==> node.changed)
  {
    hide Own, SepsStored, KidsStored, InOrder, Sorted;
    if root.None? {
      node := new Node.Default();
      EmptyHeld(store.cells);
    } else {
      var record := store.cells[root.value];
      ShapeLower(t, h, RootLo(h), 0);
      if h == 1 {
        LeafPtrs(t);
      }
      StoredHeld(t, store.cells);
      node := new Node.FromRecord(record.seps, record.kids);
    }
  }

  lemma EmptyHeld(c: Cells)
    requires 0 in c
    ensures Held(EmptyTree, c) && Recs(EmptyTree.seps) == [] && Ptrs(EmptyTree.kids) == [None]
    ensures InOrder(EmptyTree) == []
    ensures Own(EmptyTree) == multiset{0} && Shape(EmptyTree, 1, 0)
  {
    assert [Nil][1..] == [];
    assert OwnKids([Nil]) == multiset{};
    assert Own(EmptyTree) == multiset{0};
  }

  /** Writes a root to its entry, or to a new one if it has none. */
  method WriteRoot(root: Node, index: Option<Address>, h: nat, store: Store, ghost x: Tree) returns (at: Address)
    requires store.Valid() && Live(root, x, h, store.cells) && x.addr == RootAddr(index)
    requires index.Some? ==> store.cells[x.addr] != Reserved
    modifies store
    ensures store.Valid() && Stored(store.cells, x.(addr := at)) && NoDup(Own(x.(addr := at)))
    ensures at != 0 && Framed(old(store.cells), store.cells, multiset{x.addr})
    ensures From(old(store.cells), Own(x), Own(x.(addr := at)))
    ensures Neat(old(store.cells), store.cells, Own(x), Own(x.(addr := at)))
  {
    hide Own, SepsStored, KidsStored, Recs, Ptrs, Node.SepsAre, Node.KidsAre, Node.Bare;
    ghost var c := store.cells;
    var record := root.ToRecord(Recs(x.seps), Ptrs(x.kids));
    if index.Some? {
      var moved := store.WriteExisting(index.value, record);
      at := if moved.Some? then moved.value else index.value;
      Rewritten(x, at, c, store.cells);
    } else {
      at := store.WriteNew(record);
      Readdressed(x, at, c, store.cells);
    }
  }

  lemma Readdressed(x: Tree, at: Address, c: Cells, d: Cells)
    requires Held(x, c) && x.addr == 0 && at !in c && d == c[at := NodeBlob(Recs(x.seps), Ptrs(x.kids))]
    ensures Stored(d, x.(addr := at)) && NoDup(Own(x.(addr := at)))
    ensures Framed(c, d, multiset{x.addr}) && From(c, Own(x), Own(x.(addr := at)))
    ensures Neat(c, d, Own(x), Own(x.(addr := at)))
  {
    hide OwnSeps, OwnKids, Own, Recs, Ptrs, SepsStored, KidsStored;
    SepsInCells(c, x.seps);
    KidsInCells(c, x.kids);
    var body := OwnSeps(x.seps) + OwnKids(x.kids);
    OwnParts(x);
    OwnParts(x.(addr := at));
    BodyKept(x, body, c, d);
    NoDupReplace(c, body, multiset{x.addr}, multiset{at});
    FromRest(c, body, multiset{x.addr}, multiset{at});
  }

  // ----- growing the tree by a level

  /** The new root over the two halves of the old one; it has no entry yet. */
  ghost function Raised(res: Result): (x: Tree)
    requires res.Two?
    ensures x.Branch? && x.addr == 0
  {
    Branch(0, [res.m], [res.t, res.r])
  }

  lemma RaisedFacts(res: Result, h: nat, d: Cells)
    requires res.Two? && Settled(res, d) && 0 in d && d[0] == Reserved && h > 0
    requires Shape(res.t, h, MIDDLE) && Shape(res.r, h, MIDDLE)
    ensures Held(Raised(res), d) && Shape(Raised(res), h + 1, 1) && InOrder(Raised(res)) == Order(res)
    ensures Own(Raised(res)) == multiset{0} + Owned(res)
    ensures Recs(Raised(res).seps) == [Rec(res.m)] && Ptrs(Raised(res).kids) == [Ptr(res.t), Ptr(res.r)]
  {
    var x, p := Raised(res), Pair(res.t, res.m, res.r);
    PairOrderIs(p);
    PairOwnIs(p);
    RaisedOwn(res, d);
    RaisedShape(res, h);
  }

  lemma RaisedShape(res: Result, h: nat)
    requires res.Two? && h > 0 && Shape(res.t, h, MIDDLE) && Shape(res.r, h, MIDDLE)
    ensures Shape(Raised(res), h + 1, 1)
  {
    hide Own;
    forall i | 0 <= i < 2 ensures Shape([res.t, res.r][i], h, MIDDLE) {
    }
  }

  lemma RaisedOwn(res: Result, d: Cells)
    requires res.Two? && Settled(res, d) && 0 in d && d[0] == Reserved
    ensures Own(Raised(res)) == multiset{0} + Owned(res) && NoDup(Own(Raised(res)))
  {
    hide Own, OwnSeps, OwnKids, Stored;
    var p := Pair(res.t, res.m, res.r);
    PairOwnIs(p);
    OwnParts(Raised(res));
    assert PairOwn(p) == Owned(res);
    assert Own(Raised(res)) == multiset{0} + (OwnSeps([res.m]) + OwnKids([res.t, res.r]));
    NotReserved(d, res.t);
    NotReserved(d, res.r);
    assert [res.m][0] == res.m;
    NoDupAdd(Owned(res), 0);
  }

  /** Writing the left half of a split root leaves the separator and the right half alone. */
  lemma RootWritten(res: Result, at: Address, c: Cells, d: Cells)
    requires res.Two? && Kept(res, c) && Stored(d, res.t.(addr := at)) && NoDup(Own(res.t.(addr := at)))
    requires Framed(c, d, multiset{res.t.addr}) && From(c, Own(res.t), Own(res.t.(addr := at)))
    requires Neat(c, d, Own(res.t), Own(res.t.(addr := at)))
    ensures Settled(res.(t := res.t.(addr := at)), d)
    ensures From(c, Owned(res), Owned(res.(t := res.t.(addr := at))))
    ensures Neat(c, d, Owned(res), Owned(res.(t := res.t.(addr := at))))
  {
    hide Own, Stored, SepsStored, KidsStored, Owned, Framed, From, Neat, NoDup, Beside;
    var y := res.t.(addr := at);
    OwnedIs(res);
    OwnedIs(res.(t := y));
    BesideSame(res, y);
    BesideInCells(res, c);
    NoDupReplace(c, Beside(res), Own(res.t), Own(y));
    FromRest(c, Beside(res), Own(res.t), Own(y));
    NeatRest(c, d, Beside(res), Own(res.t), Own(y));
    OwnAddr(res.t);
    FramedPart(c, d, multiset{res.t.addr}, Own(res.t));
    RestAgrees(c, d, Beside(res), Own(res.t));
    BesideFrame(res, c, d);
  }

  // ----- losing a level

  lemma CollapseFacts(x: Tree, h: nat, c: Cells, d: Cells)
    requires Held(x, c) && h > 1 && Shape(x, h, 0) && |x.seps| == 0 && Framed(c, d, multiset{x.addr})
    ensures var k := x.kids[0];
            && |x.kids| == 1 && k.Branch? && Stored(c, k) && Stored(d, k) && NoDup(Own(k)) && Shape(k, h - 1, 0)
            && Shape(k, h - 1, RootLo(h - 1)) && InOrder(k) == InOrder(x) && Ptrs(x.kids) == [Some(k.addr)]
            && Own(x) == multiset{x.addr} + Own(k) && x.addr !in Own(k)
  {
    hide Own, SepsStored, InOrder, NoDup, From, Neat;
    var k := x.kids[0];
    assert x.kids == [k] && x.seps == [];
    KidReady(x, h, 0, 0, c);
    CollapseOwn(x);
    FlatOne(k);
    assert InOrder(x) == Flat([], [k]) by { InOrderIs(x); }
    ShapeLower(k, h - 1, MIDDLE, RootLo(h - 1));
    AgreeOther(c, d, Own(k), x.addr);
    StoredFrame(c, d, k);
  }

  lemma InOrderIs(x: Tree)
    requires x.Branch?
    ensures InOrder(x) == Flat(x.seps, x.kids)
  {
  }

  lemma CollapseOwn(x: Tree)
    requires x.Branch? && x.seps == [] && |x.kids| == 1 && NoDup(Own(x))
    ensures Own(x) == multiset{x.addr} + Own(x.kids[0]) && x.addr !in Own(x.kids[0])
  {
    hide Own, OwnKids;
    var k := x.kids[0];
    assert x.kids == [k];
    OwnParts(x);
    OwnOne(Sep([], 0, []), k);
    assert Own(x) == multiset{x.addr} + Own(k);
    assert Own(x)[x.addr] <= 1;
  }

  lemma AgreeOther(c: Cells, d: Cells, m: multiset<Address>, a: Address)
    requires Framed(c, d, multiset{a}) && a !in m
    ensures Agree(c, d, m)
  {
  }

  /** The state of a pass between two changes: the loaded root and the entries of the whole tree. */
  ghost predicate Between(root: Node, index: Option<Address>, h: nat, store: Store, c: Cells, t: Tree, x: Tree)
    reads root, root.separators, root.children, store
  {
    && store.Valid() && h > 0 && t.Branch? && x.Branch? && Live(root, x, h, store.cells) && Shape(x, h, RootLo(h))
    && x.addr == RootAddr(index) && (index.None? ==> root.changed) && (index.Some? ==> store.cells[x.addr].NodeBlob?)
    && 0 in c && c[0] == Reserved && Framed(c, store.cells, Own(t)) && From(c, Own(t) + multiset{0}, Own(x))
    && Neat(c, store.cells, Own(t) + multiset{0}, Own(x))
  }

  class BTree {
    var depth: nat
    var rootIndex: Option<Address>

    constructor (rootIndex: Option<Address>, depth: nat)
      ensures this.rootIndex == rootIndex && this.depth == depth
    {
      this.rootIndex, this.depth := rootIndex, depth;
    }

    /** Applies a key-sorted batch. Of several changes to a key the last one counts. */
    method WriteSortedChanges(cs: seq<Change>, store: Store, ghost t: Tree) returns (ghost u: Tree)
      requires store.Valid() && SortedChanges(cs) && Rooted(store.cells, rootIndex, depth, t)
      modifies this, store
      ensures store.Valid() && rootIndex.Some? && Rooted(store.cells, rootIndex, depth, u)
      ensures InOrder(u) == ApplyAll(InOrder(t), cs)
      ensures Framed(old(store.cells), store.cells, Own(t)) && From(old(store.cells), Own(t), Own(u))
      ensures Neat(old(store.cells), store.cells, Own(t), Own(u))
    {
      hide Own, SepsStored, KidsStored, Stored, NoDup, Recs, Ptrs, InOrder, ApplyAll, Sorted, Shape, AllBalanced;
      hide Node.SepsAre, Node.KidsAre, Node.Bare, SortedChanges, Moves, From, Neat, Framed;
      ghost var c := store.cells;
      ghost var x := t;
      var root := FetchRoot(rootIndex, depth + 1, store, t);
      StartFacts(c, rootIndex, depth, t);
      var pos := 0;
      while pos < |cs|
        invariant pos <= |cs| && fresh(root) && fresh(root.separators) && fresh(root.children)
        invariant Between(root, rootIndex, depth + 1, store, c, t, x)
        invariant Sorted(InOrder(x)) && InOrder(x) == ApplyAll(InOrder(t), cs[..pos])
      {
        root, pos, x := ChangeRoot(root, cs, pos, store, c, t, x);
      }
      assert cs[..pos] == cs;
      u := Finish(root, store, c, t, x);
    }

    /** One round of the pass at the root: the root may split, or collapse into its only child. */
    method ChangeRoot(root: Node, cs: seq<Change>, pos: nat, store: Store, ghost c: Cells, ghost t: Tree, ghost x: Tree)
      returns (root': Node, pos': nat, ghost y: Tree)
      requires pos < |cs| && SortedChanges(cs) && Between(root, rootIndex, depth + 1, store, c, t, x)
      requires Sorted(InOrder(x)) && InOrder(x) == ApplyAll(InOrder(t), cs[..pos])
      modifies this, store, root, root.separators, root.children
      ensures root' == root || (fresh(root') && fresh(root'.separators) && fresh(root'.children))
      ensures pos < pos' <= |cs| && Between(root', rootIndex, depth + 1, store, c, t, y)
      ensures Sorted(InOrder(y)) && InOrder(y) == ApplyAll(InOrder(t), cs[..pos'])
    {
      hide Own, SepsStored, KidsStored, Stored, NoDup, Recs, Ptrs, InOrder, ApplyAll, Sorted, Shape, AllBalanced;
      hide Node.SepsAre, Node.KidsAre, Node.Bare, Moves, From, Neat, Framed, Kept, Effect, Ready;
      ghost var d := store.cells;
      RootReady(x, cs, pos);
      ghost var res;
      var last, out;
      last, out, res := ChangeNode(root, null, 0, depth + 1, cs, pos, store, x, RootLo(depth + 1), [], [], [], []);
      ghost var e := store.cells;
      RootEffect(t, x, cs, pos, last, res);
      RootMoved(c, d, e, t, x, res);
      pos' := last + 1;
      match out
      case Grow(sep, right) =>
        root', y := Raise(root, sep, right, store, c, t, res);
      case Underflow =>
        root', y := Collapse(root, store, c, t, res.t);
      case Done =>
        root', y := root, res.t;
        DoneFacts(d, e, x, depth + 1, RootLo(depth + 1), res);
    }

    /** Puts a new root over the two halves of the old one. */
    method Raise(root: Node, sep: SepRec, right: Address, store: Store, ghost c: Cells, ghost t: Tree,
                 ghost res: Result)
      returns (root': Node, ghost y: Tree)
      requires store.Valid() && res.Two? && res.t.Branch? && Live(root, res.t, depth + 1, store.cells)
      requires Kept(res, store.cells)
      requires Shape(res.t, depth + 1, MIDDLE) && Shape(res.r, depth + 1, MIDDLE)
      requires sep == Rec(res.m) && Ptr(res.r) == Some(right) && res.t.addr == RootAddr(rootIndex)
      requires rootIndex.Some? ==> store.cells[res.t.addr].NodeBlob?
      requires t.Branch? && 0 in c && c[0] == Reserved && Framed(c, store.cells, Own(t))
      requires From(c, Own(t) + multiset{0}, Owned(res)) && Neat(c, store.cells, Own(t) + multiset{0}, Owned(res))
      modifies this, store
      ensures fresh(root') && fresh(root'.separators) && fresh(root'.children)
      ensures Between(root', rootIndex, depth + 1, store, c, t, y) && InOrder(y) == Order(res)
    {
      hide Own, SepsStored, KidsStored, Stored, NoDup, Recs, Ptrs, InOrder, Shape, AllBalanced, From, Neat, Framed;
      hide Kept;
      hide Settled, Raised;
      hide Node.SepsAre, Node.KidsAre, Owned, Order;
      ghost var d := store.cells;
      depth := depth + 1;
      var at := WriteRoot(root, rootIndex, depth, store, res.t);
      rootIndex := None;
      ghost var half := res.(t := res.t.(addr := at));
      RootWritten(res, at, d, store.cells);
      SameButAddr(res.t, half.t, depth, MIDDLE);
      OrderReaddressed(res, half.t);
      RaisedFacts(half, depth, store.cells);
      RaisedFrames(c, d, store.cells, t, res, half);
      y := Raised(half);
      root' := NewRoot(at, sep, right);
    }

    method NewRoot(left: Address, sep: SepRec, right: Address) returns (root: Node)
      ensures fresh(root) && fresh(root.separators) && fresh(root.children) && root.changed
      ensures root.Is([sep], [Some(left), Some(right)])
    {
      root := new Node.Default();
      root.SetChild(0, Some(left));
      root.SetChild(1, Some(right));
      root.SetSeparator(0, Some(sep));
      assert root.SepsAre([sep]) && root.KidsAre([Some(left), Some(right)]);
    }

    /** A root without separators gives way to its only child. */
    method Collapse(root: Node, store: Store, ghost c: Cells, ghost t: Tree, ghost x: Tree)
      returns (root': Node, ghost y: Tree)
      requires store.Valid() && x.Branch? && Live(root, x, depth + 1, store.cells) && Shape(x, depth + 1, 0)
      requires x.addr == RootAddr(rootIndex) && (rootIndex.None? ==> root.changed)
      requires rootIndex.Some? ==> store.cells[x.addr].NodeBlob?
      requires t.Branch? && 0 in c && c[0] == Reserved && Framed(c, store.cells, Own(t))
      requires From(c, Own(t) + multiset{0}, Own(x)) && Neat(c, store.cells, Own(t) + multiset{0}, Own(x))
      modifies this, store
      ensures root' == root || (fresh(root') && fresh(root'.separators) && fresh(root'.children))
      ensures Between(root', rootIndex, depth + 1, store, c, t, y) && InOrder(y) == InOrder(x)
    {
      hide Own, SepsStored, KidsStored, NoDup, Recs, InOrder, AllBalanced, From, Neat, Framed;
      var n := root.NumberSeparator(Recs(x.seps), Ptrs(x.kids));
      RootKid(x, depth + 1);
      if n == 0 && root.children[0].Some? {
        ghost var d := store.cells;
        assert root.children[0] == Ptrs(x.kids)[0];
        KidReady(x, depth + 1, 0, 0, d);
        root' := FetchChild(root, 0, depth + 1, store, x);
        FramedRemove(d, x.addr);
        FramedRefl(d, multiset{x.addr});
        if rootIndex.Some? {
          store.Remove(rootIndex.value);
        }
        CollapseFacts(x, depth + 1, d, store.cells);
        CollapseFrames(c, d, store.cells, t, x, x.kids[0]);
        rootIndex := root.children[0];
        depth := depth - 1;
        y := x.kids[0];
        StoredHeld(y, store.cells);
      } else {
        root', y := root, x;
        ShapeHigher(x, depth + 1, 0, RootLo(depth + 1));
      }
    }

    /** Writes the root if it changed. */
    method Finish(root: Node, store: Store, ghost c: Cells, ghost t: Tree, ghost x: Tree) returns (ghost u: Tree)
      requires Between(root, rootIndex, depth + 1, store, c, t, x) && Sorted(InOrder(x))
      modifies this, store
      ensures store.Valid() && rootIndex.Some? && Rooted(store.cells, rootIndex, depth, u) && InOrder(u) == InOrder(x)
      ensures Framed(c, store.cells, Own(t)) && From(c, Own(t), Own(u)) && Neat(c, store.cells, Own(t), Own(u))
    {
      hide Own, SepsStored, KidsStored, NoDup, Recs, Ptrs, InOrder, Sorted, Shape, AllBalanced, From, Neat, Framed;
      hide Node.SepsAre, Node.KidsAre, Node.Bare;
      u := x;
      ghost var d := store.cells;
      if root.changed {
        var at := WriteRoot(root, rootIndex, depth + 1, store, x);
        rootIndex := Some(at);
        u := x.(addr := at);
        SameButAddr(x, u, depth + 1, RootLo(depth + 1));
        WrittenFrames(c, d, store.cells, t, x, u);
      }
      NotReserved(store.cells, u);
      FromNonzero(c, store.cells, Own(t), Own(u));
    }
  }

  lemma RootKid(x: Tree, h: nat)
    requires Shape(x, h, 0) && h > 0
    ensures (h > 1) == Ptrs(x.kids)[0].Some?
  {
    assert Shape(x.kids[0], h - 1, MIDDLE);
  }

  lemma StartFacts(c: Cells, root: Option<Address>, depth: nat, t: Tree)
    requires Rooted(c, root, depth, t) && 0 in c
    ensures From(c, Own(t) + multiset{0}, Own(t)) && Neat(c, c, Own(t) + multiset{0}, Own(t)) && Framed(c, c, Own(t))
    ensures ApplyAll(InOrder(t), []) == InOrder(t)
    ensures root.Some? ==> t.addr in c && c[t.addr].NodeBlob?
  {
    hide InOrder, Own;
  }

  lemma RootReady(x: Tree, cs: seq<Change>, pos: nat)
    requires pos < |cs| && SortedChanges(cs) && Sorted(InOrder(x))
    ensures Ready([], x, [], cs, pos)
  {
    hide InOrder, Less;
    assert [] + InOrder(x) + [] == InOrder(x);
  }

  lemma RootEffect(t: Tree, x: Tree, cs: seq<Change>, pos: nat, last: nat, res: Result)
    requires Effect([], x, [], cs, pos, last, res) && Sorted(InOrder(x))
    requires InOrder(x) == ApplyAll(InOrder(t), cs[..pos])
    ensures pos <= last < |cs| && Order(res) == ApplyAll(InOrder(t), cs[..last + 1]) && Sorted(Order(res))
  {
    hide InOrder, Less, Order, ApplyAll;
    assert [] + InOrder(x) + [] == InOrder(x) && [] + Order(res) + [] == Order(res);
    assert cs[..last + 1] == cs[..pos] + cs[pos..last + 1];
    ApplyAllJoin(InOrder(t), cs[..pos], cs[pos..last + 1]);
    ApplyAllSorted(InOrder(x), cs[pos..last + 1]);
  }

  lemma RootMoved(c: Cells, d: Cells, e: Cells, t: Tree, x: Tree, res: Result)
    requires 0 in c && c[0] == Reserved && 0 in e && e[0] == Reserved && x.Branch? && NoDup(Own(x)) && x.addr in d
    requires Framed(c, d, Own(t)) && From(c, Own(t) + multiset{0}, Own(x)) && Neat(c, d, Own(t) + multiset{0}, Own(x))
    requires Moves(d, e, x, res)
    ensures Framed(c, e, Own(t)) && From(c, Own(t) + multiset{0}, Owned(res))
    ensures Neat(c, e, Own(t) + multiset{0}, Owned(res)) && x.addr in e && e[x.addr] == d[x.addr]
  {
    OwnBody(x);
    hide Own, Owned, Body;
    assert Own(x)[x.addr] <= 1;
    RootFrames(c, d, e, Own(t), Own(x), Body(x), Owned(res));
  }

  lemma RootFrames(c: Cells, d: Cells, e: Cells, o: multiset<Address>, p: multiset<Address>, b: multiset<Address>,
                   n: multiset<Address>)
    requires 0 in c && c[0] == Reserved && 0 in e && e[0] == Reserved && b <= p
    requires Framed(c, d, o) && From(c, o + multiset{0}, p) && Neat(c, d, o + multiset{0}, p) && Framed(d, e, b)
    requires From(d, p, n) && Neat(d, e, p, n)
    ensures Framed(c, e, o) && From(c, o + multiset{0}, n) && Neat(c, e, o + multiset{0}, n)
  {
    forall a | a in c && a !in o ensures a in e && e[a] == c[a] {
      if a != 0 {
        assert a !in p;
      }
    }
  }

  lemma RaisedFrames(c: Cells, d: Cells, e: Cells, t: Tree, res: Result, half: Result)
    requires 0 in c && c[0] == Reserved && 0 in e && e[0] == Reserved && res.t.Branch?
    requires Framed(c, d, Own(t)) && From(c, Own(t) + multiset{0}, Owned(res))
    requires Neat(c, d, Own(t) + multiset{0}, Owned(res))
    requires Framed(d, e, multiset{res.t.addr}) && From(d, Owned(res), Owned(half))
    requires Neat(d, e, Owned(res), Owned(half))
    ensures Framed(c, e, Own(t)) && From(c, Own(t) + multiset{0}, multiset{0} + Owned(half))
    ensures Neat(c, e, Own(t) + multiset{0}, multiset{0} + Owned(half))
  {
    OwnAddr(res.t);
    OwnedIs(res);
    hide Own, Owned;
    RootFrames(c, d, e, Own(t), Owned(res), multiset{res.t.addr}, Owned(half));
  }

  lemma CollapseFrames(c: Cells, d: Cells, e: Cells, t: Tree, x: Tree, k: Tree)
    requires 0 in c && c[0] == Reserved && 0 in e && e[0] == Reserved && x.Branch?
    requires Own(x) == multiset{x.addr} + Own(k) && e == if x.addr == 0 then d else d - {x.addr}
    requires Framed(c, d, Own(t)) && From(c, Own(t) + multiset{0}, Own(x)) && Neat(c, d, Own(t) + multiset{0}, Own(x))
    requires Framed(d, e, multiset{x.addr})
    ensures Framed(c, e, Own(t)) && From(c, Own(t) + multiset{0}, Own(k)) && Neat(c, e, Own(t) + multiset{0}, Own(k))
  {
    OwnAddr(x);
    hide Own;
    RootFrames(c, d, e, Own(t), Own(x), multiset{x.addr}, Own(k));
  }

  lemma WrittenFrames(c: Cells, d: Cells, e: Cells, t: Tree, x: Tree, u: Tree)
    requires 0 in c && c[0] == Reserved && 0 in e && e[0] == Reserved && x.Branch?
    requires Framed(c, d, Own(t)) && From(c, Own(t) + multiset{0}, Own(x)) && Neat(c, d, Own(t) + multiset{0}, Own(x))
    requires Framed(d, e, multiset{x.addr}) && From(d, Own(x), Own(u)) && Neat(d, e, Own(x), Own(u))
    ensures Framed(c, e, Own(t)) && From(c, Own(t) + multiset{0}, Own(u)) && Neat(c, e, Own(t) + multiset{0}, Own(u))
  {
    OwnAddr(x);
    hide Own;
    RootFrames(c, d, e, Own(t), Own(x), multiset{x.addr}, Own(u));
  }

  lemma FramedRemove(d: Cells, a: Address)
    ensures Framed(d, d - {a}, multiset{a})
  {
  }

  lemma FramedRefl(d: Cells, m: multiset<Address>)
    ensures Framed(d, d, m)
  {
  }

  lemma FromNonzero(c: Cells, d: Cells, o: multiset<Address>, n: multiset<Address>)
    requires From(c, o + multiset{0}, n) && Neat(c, d, o + multiset{0}, n) && 0 !in n
    ensures From(c, o, n) && Neat(c, d, o, n)
  {
  }
}
