/** Iterating a B-tree column: a stack walk over the stored tree, merged with the commit overlay. */
module Iteration {
  import opened Keys
  import opened Entries
  import opened Trees
  import opened Nodes
  import opened Stores
  import opened Pairs
  import opened Rebalancing
  import opened Kids
  import opened Changes
  import opened Gaps
  import opened BTrees
  import opened BTreeTables
  import opened Merging

  // ----- what a stack of visited nodes still has to yield

  /** The position in each node on the way down: child `ix` of each is the next one on the path. */
  ghost predicate OnPath(path: seq<Tree>, ixs: seq<nat>) {
    |path| == |ixs| && forall i :: 0 <= i < |path| ==> IsNode(path[i]) && ixs[i] <= |path[i].seps|
  }

  /** Everything right of the path, innermost node first. */
  ghost function Tails(path: seq<Tree>, ixs: seq<nat>): seq<Entry>
    requires OnPath(path, ixs)
  {
    if path == [] then []
    else
      var n := |path| - 1;
      Back(path[n], ixs[n]) + Tails(path[..n], ixs[..n])
  }

  /**
   * What is left: with `nextSeparator` the walk resumes at the innermost separator, otherwise at the child left of it.
   */
  ghost function Left(path: seq<Tree>, ixs: seq<nat>, nextSeparator: bool, root: Tree): seq<Entry>
    requires OnPath(path, ixs)
  {
    if nextSeparator then Tails(path, ixs)
    else if path == [] then InOrder(root)
    else InOrder(path[|path| - 1].kids[ixs[|path| - 1]]) + Tails(path, ixs)
  }

  lemma TailsPush(path: seq<Tree>, ixs: seq<nat>, t: Tree, i: nat)
    requires OnPath(path, ixs) && IsNode(t) && i <= |t.seps|
    ensures OnPath(path + [t], ixs + [i]) && Tails(path + [t], ixs + [i]) == Back(t, i) + Tails(path, ixs)
  {
    hide Back;
    var p, x := path + [t], ixs + [i];
    assert p[..|p| - 1] == path && x[..|p| - 1] == ixs;
  }

  /** The first entry of a node is in its first child or is its first separator. */
  lemma NodeFromFirst(t: Tree)
    requires IsNode(t)
    ensures InOrder(t) == InOrder(t.kids[0]) + Back(t, 0)
  {
    hide InOrder, Back;
    GraftOrder(t, 0, One(t.kids[0]));
    FrontBackEnds(t, 0);
  }

  /** Past a separator come the child right of it and the rest. */
  lemma BackStep(t: Tree, i: nat)
    requires IsNode(t) && i < |t.seps|
    ensures Back(t, i) == [Item(t.seps[i])] + InOrder(t.kids[i + 1]) + Back(t, i + 1)
  {
    hide InOrder;
    FlatJoinPost([], [t.kids[i + 1]], t.seps[i + 1..], t.kids[i + 2..]);
    assert [] + t.seps[i + 1..] == t.seps[i..][1..];
    assert [t.kids[i + 1]] + t.kids[i + 2..] == t.kids[i + 1..];
    FlatOne(t.kids[i + 1]);
  }

  lemma BackEnd(t: Tree)
    requires IsNode(t)
    ensures Back(t, |t.seps|) == []
  {
    FrontBackEnds(t, |t.seps|);
  }

  ghost predicate BodyStored(cells: Cells, t: Tree) {
    t.Branch? && SepsStored(cells, t.seps) && KidsStored(cells, t.kids)
  }

  /** The stack holds the records of stored nodes of height falling by one a level. */
  ghost predicate Stack(stack: seq<(nat, Blob)>, path: seq<Tree>, ixs: seq<nat>, h: nat, cells: Cells) {
    && |stack| == |path| == |ixs| <= h
    && forall i :: 0 <= i < |stack| ==>
         && BodyStored(cells, path[i]) && Shape(path[i], h - i, 0) && ixs[i] <= |path[i].seps|
         && stack[i].0 == ixs[i] && stack[i].1 == NodeBlob(Recs(path[i].seps), Ptrs(path[i].kids))
  }

  class BTreeIterState {
    const store: Store
    const h: nat
    const root: Option<Address>
    ghost const tree: Tree
    var stack: seq<(nat, Blob)>
    var nextSeparator: bool
    ghost var path: seq<Tree>
    ghost var ixs: seq<nat>

    ghost predicate Valid()
      reads this, store
    {
      && h > 0 && Rooted(store.cells, root, h - 1, tree)
      && Shape(tree, h, 0) && Stack(stack, path, ixs, h, store.cells) && OnPath(path, ixs)
    }

    /** The entries this walk has not yielded yet. */
    ghost function Rest(): seq<Entry>
      requires Valid()
      reads this, store
    {
      Left(path, ixs, nextSeparator, tree)
    }

    constructor (store: Store, root: Option<Address>, h: nat, ghost tree: Tree)
      requires h > 0 && Rooted(store.cells, root, h - 1, tree)
      ensures Valid() && Rest() == InOrder(tree) && this.store == store && this.tree == tree && this.h == h
      ensures stack == []
    {
      this.store, this.root, this.h, this.tree := store, root, h, tree;
      stack, path, ixs, nextSeparator := [], [], [], false;
      new;
      ShapeLower(tree, h, RootLo(h), 0);
    }

    /** Stands before the first entry, or after the last one. */
    method Place(atEnd: bool)
      requires Valid() && stack == []
      modifies this
      ensures Valid() && stack == [] && Rest() == if atEnd then [] else InOrder(tree)
    {
      hide Rooted, Shape, InOrder;
      nextSeparator := atEnd;
    }

    /** The root's record; a column without a root has an empty one. */
    method FetchRootRecord() returns (node: Blob)
      requires Valid()
      ensures BodyStored(store.cells, tree) && node == NodeBlob(Recs(tree.seps), Ptrs(tree.kids))
    {
      hide Own, Shape, InOrder, Sorted;
      if root.None? {
        EmptyRecord(store.cells);
        node := NodeBlob([], [None]);
      } else {
        node := store.cells[root.value];
      }
    }

    method Push(i: nat, node: Blob, ghost t: Tree)
      requires Valid() && |stack| < h && BodyStored(store.cells, t) && Shape(t, h - |stack|, 0)
      requires node == NodeBlob(Recs(t.seps), Ptrs(t.kids)) && i <= |t.seps|
      modifies this
      ensures Valid() && path == old(path) + [t] && ixs == old(ixs) + [i] && |stack| == old(|stack|) + 1
      ensures nextSeparator == old(nextSeparator) && OnPath(old(path), old(ixs)) && IsNode(t)
      ensures Tails(path, ixs) == Back(t, i) + Tails(old(path), old(ixs))
    {
      hide BodyStored, Back, InOrder, Recs, Ptrs, Own, AllBalanced;
      TailsPush(path, ixs, t, i);
      stack, path, ixs := stack + [(i, node)], path + [t], ixs + [i];
    }

    /** Walks down to the leftmost leaf below the current position. */
    method DescendLeft()
      requires Valid() && !nextSeparator
      modifies this
      ensures Valid() && nextSeparator && Rest() == old(Rest())
    {
      hide BodyStored, Back, InOrder, Recs, Own, AllBalanced, Sorted, Tails;
      if stack == [] {
        NodeShape(tree, h);
        NodeFromFirst(tree);
        TailsEmpty(path, ixs);
        var node := FetchRootRecord();
        Push(0, node, tree);
      }
      while stack[|stack| - 1].1.kids[stack[|stack| - 1].0].Some?
        invariant Valid() && !nextSeparator && stack != [] && Rest() == old(Rest())
        decreases h - |stack|
      {
        var top := stack[|stack| - 1];
        ghost var t := path[|path| - 1];
        KidAt(t, h - |stack| + 1, top.0, store.cells);
        ghost var k := t.kids[top.0];
        NodeFromFirst(k);
        Push(0, store.cells[top.1.kids[top.0].value], k);
      }
      EndOfDescent(path[|path| - 1], h - |stack| + 1, ixs[|path| - 1]);
      nextSeparator := true;
    }

    /** The next entry in key order. */
    method Next() returns (r: Option<Entry>)
      requires Valid()
      modifies this
      ensures Valid()
      ensures r == if old(Rest()) == [] then None else Some(old(Rest())[0])
      ensures Rest() == if old(Rest()) == [] then [] else old(Rest())[1..]
      ensures r.None? ==> stack == []
    {
      hide BodyStored, Back, InOrder, Own, AllBalanced, Sorted, Tails, Ptrs, Recs, Rooted, Shape;
      if !nextSeparator {
        DescendLeft();
      }
      while stack != []
        invariant Valid() && nextSeparator && Rest() == old(Rest())
        decreases |stack|
      {
        var top := stack[|stack| - 1];
        if top.0 < |top.1.seps| {
          var sep := top.1.seps[top.0];
          SepAt(path[|path| - 1], ixs[|path| - 1], store.cells);
          r := Some(Entry(sep.key, store.cells[sep.at].bytes));
          PassTop();
          return;
        }
        Pop();
      }
      TailsEmpty(path, ixs);
      r := None;
    }

    /** Leaves a node whose separators have all been yielded. */
    method Pop()
      requires Valid() && nextSeparator && stack != [] && ixs[|ixs| - 1] == |path[|path| - 1].seps|
      modifies this
      ensures Valid() && nextSeparator && Rest() == old(Rest()) && |stack| == old(|stack|) - 1
    {
      hide BodyStored, Back, InOrder, Own, AllBalanced, Sorted, Tails, Ptrs, Recs, Rooted, Shape;
      TailsPop(path, ixs);
      BackEnd(path[|path| - 1]);
      var n := |stack| - 1;
      stack, path, ixs := stack[..n], path[..n], ixs[..n];
    }

    /** Steps past the separator just yielded. */
    method Advance()
      requires Valid() && nextSeparator && stack != []
      requires ixs[|ixs| - 1] < |path[|path| - 1].seps|
      modifies this
      ensures Valid() && !nextSeparator && path == old(path)
      ensures var n := |path| - 1; var t, i := path[n], old(ixs[n]);
              OnPath(path[..n], old(ixs)[..n]) &&
              Rest() == InOrder(t.kids[i + 1]) + Back(t, i + 1) + Tails(path[..n], old(ixs)[..n])
    {
      hide BodyStored, Back, InOrder, Own, AllBalanced, Sorted, Recs, Ptrs, Tails;
      var n := |stack| - 1;
      ghost var i := ixs[n];
      stack := stack[n := (stack[n].0 + 1, stack[n].1)];
      ixs := ixs[n := i + 1];
      nextSeparator := false;
      TailsPop(path, ixs);
      assert ixs[..n] == old(ixs)[..n];
    }

    /** Positions the walk at the first entry whose key is not below `key`, or with `after` at the first above it. */
    method Seek(key: Key, after: bool)
      requires Valid()
      modifies this
      ensures Valid() && Rest() == if after then AfterKey(InOrder(tree), key) else FromKey(InOrder(tree), key)
    {
      hide BodyStored, Back, InOrder, Own, AllBalanced, Sorted, Recs, Ptrs, Tails, FromKey;
      stack, path, ixs := [], [], [];
      nextSeparator := true;
      TailsEmpty(path, ixs);
      var node := FetchRootRecord();
      var found := SeekIn(key, node, tree);
      assert FromKey(InOrder(tree), key) + [] == FromKey(InOrder(tree), key);
      if found && after {
        PassTop();
      }
    }

    /** Steps past the separator the walk stands at. */
    method PassTop()
      requires Valid() && nextSeparator && stack != [] && ixs[|ixs| - 1] < |path[|path| - 1].seps|
      modifies this
      ensures Valid() && old(Rest()) != [] && Rest() == old(Rest())[1..]
      ensures old(Rest()[0]) == Item(old(path[|path| - 1].seps[ixs[|ixs| - 1]]))
    {
      hide BodyStored, Back, InOrder, Own, AllBalanced, Sorted, Recs, Ptrs, Tails;
      TailsPop(path, ixs);
      BackStep(path[|path| - 1], ixs[|path| - 1]);
      Advance();
    }

    /** Pushes the positions of the key in a node and below it, and says whether it is there. */
    method SeekIn(key: Key, from: Blob, ghost t: Tree) returns (found: bool)
      requires Valid() && nextSeparator && |stack| < h && t.Branch? && from == NodeBlob(Recs(t.seps), Ptrs(t.kids))
      requires BodyStored(store.cells, t) && Shape(t, h - |stack|, 0) && Sorted(InOrder(t))
      modifies this
      ensures Valid() && nextSeparator && OnPath(old(path), old(ixs))
      ensures Rest() == FromKey(InOrder(t), key) + Tails(old(path), old(ixs))
      ensures var f := FromKey(InOrder(t), key); found <==> f != [] && f[0].key == key
      ensures found ==> stack != [] && ixs[|ixs| - 1] < |path[|path| - 1].seps|
      decreases h - |stack|
    {
      hide Own, BodyStored, AllBalanced, InOrder, Back, Front, Tails, Less, Sorted, FromKey, Rooted, Recs, Ptrs;
      var at, i := PositionIn(from, key);
      SeekHere(t, i, key, at);
      found := at;
      if !at && from.kids[i].Some? {
        KidAt(t, h - |stack|, i, store.cells);
        SortedKid(t, i);
        Push(i, from, t);
        found := SeekIn(key, store.cells[from.kids[i].value], t.kids[i]);
      } else {
        Push(i, from, t);
      }
    }
  }

  /** Whether the key is a separator of the record, and the first separator not below it. */
  method PositionIn(from: Blob, key: Key) returns (at: bool, i: nat)
    requires from.NodeBlob?
    ensures i <= |from.seps| && (forall j :: 0 <= j < i ==> Less(from.seps[j].key, key))
    ensures at ==> i < |from.seps| && from.seps[i].key == key
    ensures !at && i < |from.seps| ==> Less(key, from.seps[i].key)
  {
    i := 0;
    while i < |from.seps|
      invariant i <= |from.seps| && forall j :: 0 <= j < i ==> Less(from.seps[j].key, key)
    {
      if Less(key, from.seps[i].key) {
        return false, i;
      }
      if key == from.seps[i].key {
        return true, i;
      }
      LessTotal(key, from.seps[i].key);
      i := i + 1;
    }
    at := false;
  }

  /** The position of a key in a node, as told by its record. */
  lemma SeekHere(t: Tree, i: nat, key: Key, at: bool)
    requires IsNode(t) && Sorted(InOrder(t)) && i <= |t.seps|
    requires i > 0 ==> Less(Recs(t.seps)[i - 1].key, key)
    requires at ==> i < |t.seps| && Recs(t.seps)[i].key == key
    requires !at && i < |t.seps| ==> Less(key, Recs(t.seps)[i].key)
    ensures at ==> FromKey(InOrder(t), key) == Back(t, i) && i < |t.seps| && Back(t, i) != []
    ensures at ==> Back(t, i)[0].key == key
    ensures !at ==> FromKey(InOrder(t), key) == FromKey(InOrder(t.kids[i]), key) + Back(t, i)
    ensures !at ==> Back(t, i) == [] || Back(t, i)[0].key != key
    ensures !at && Ptrs(t.kids)[i].None? ==> FromKey(InOrder(t), key) == Back(t, i)
  {
    hide Back, InOrder, Less, Sorted, FromKey;
    SeekSplit(t, i, key, at);
    LessIrreflexive(key);
    if i < |t.seps| {
      BackStep(t, i);
    } else {
      BackEnd(t);
    }
  }

  lemma EmptyRecord(c: Cells)
    ensures BodyStored(c, EmptyTree) && Recs(EmptyTree.seps) == [] && Ptrs(EmptyTree.kids) == [None]
  {
  }

  lemma TailsEmpty(path: seq<Tree>, ixs: seq<nat>)
    requires OnPath(path, ixs)
    ensures path == [] ==> Tails(path, ixs) == []
  {
  }

  lemma TailsPop(path: seq<Tree>, ixs: seq<nat>)
    requires OnPath(path, ixs) && path != []
    ensures var n := |path| - 1;
            OnPath(path[..n], ixs[..n]) && Tails(path, ixs) == Back(path[n], ixs[n]) + Tails(path[..n], ixs[..n])
  {
    hide Back;
  }

  lemma NodeShape(t: Tree, h: nat)
    requires Shape(t, h, 0) && h > 0
    ensures IsNode(t)
  {
  }

  lemma KidAt(t: Tree, h: nat, i: nat, cells: Cells)
    requires BodyStored(cells, t) && h > 0 && Shape(t, h, 0) && i < |t.kids| && Ptrs(t.kids)[i].Some?
    ensures var k := t.kids[i];
            && h > 1 && IsNode(k) && Ptrs(t.kids)[i] == Some(k.addr) && BodyStored(cells, k) && Shape(k, h - 1, 0)
            && k.addr in cells && cells[k.addr] == NodeBlob(Recs(k.seps), Ptrs(k.kids))
  {
    hide SepsStored;
    assert Shape(t.kids[i], h - 1, MIDDLE);
    assert Stored(cells, t.kids[i]);
    if h > 1 {
      ShapeLower(t.kids[i], h - 1, MIDDLE, 0);
    }
  }

  lemma EndOfDescent(t: Tree, h: nat, i: nat)
    requires h > 0 && Shape(t, h, 0) && i < |t.kids| && Ptrs(t.kids)[i].None?
    ensures InOrder(t.kids[i]) == []
  {
    NilOrder();
  }

  lemma SepAt(t: Tree, i: nat, cells: Cells)
    requires BodyStored(cells, t) && i < |t.seps|
    ensures Recs(t.seps)[i] == Rec(t.seps[i])
    ensures t.seps[i].at in cells && cells[t.seps[i].at] == ValueBlob(t.seps[i].value)
  {
  }

  lemma SortedKid(t: Tree, i: nat)
    requires IsNode(t) && Sorted(InOrder(t)) && i < |t.kids|
    ensures Sorted(InOrder(t.kids[i]))
  {
    hide InOrder, Front, Back, Less;
    GraftOrder(t, i, One(t.kids[i]));
    SortedParts(Front(t, i) + InOrder(t.kids[i]), Back(t, i));
    SortedParts(Front(t, i), InOrder(t.kids[i]));
  }

  /** The entries of a node from a key on: from the separator that is the key, or from within a child. */
  lemma SeekSplit(t: Tree, i: nat, key: Key, at: bool)
    requires IsNode(t) && Sorted(InOrder(t)) && i <= |t.seps|
    requires i > 0 ==> Less(t.seps[i - 1].key, key)
    requires at ==> i < |t.seps| && t.seps[i].key == key
    requires !at && i < |t.seps| ==> Less(key, t.seps[i].key)
    ensures at ==> FromKey(InOrder(t), key) == Back(t, i)
    ensures !at ==> FromKey(InOrder(t), key) == FromKey(InOrder(t.kids[i]), key) + Back(t, i)
    ensures !at && t.kids[i] == Nil ==> FromKey(InOrder(t), key) == Back(t, i)
  {
    hide InOrder, Front, Back, Less, Sorted, FromKey;
    if at {
      SeekAtSep(t, i, key);
    } else {
      SeekAtKid(t, i, key);
      NilOrder();
      assert FromKey([], key) + Back(t, i) == Back(t, i) by { FromNothing(key); }
    }
  }

  lemma FromNothing(key: Key)
    ensures FromKey([], key) == []
  {
  }

  lemma SeekAtSep(t: Tree, i: nat, key: Key)
    requires IsNode(t) && Sorted(InOrder(t)) && i < |t.seps| && t.seps[i].key == key
    ensures FromKey(InOrder(t), key) == Back(t, i)
  {
    hide InOrder, Front, Back, Less, Sorted;
    var f, k, b := Front(t, i), InOrder(t.kids[i]), Back(t, i);
    GraftOrder(t, i, One(t.kids[i]));
    FrontBackEnds(t, i);
    assert [] + InOrder(t) + [] == InOrder(t);
    GapAtSep([], t, [], i);
    assert [] + f + k == f + k;
    FromKeyBelow(f + k, b, key);
    LessIrreflexive(key);
    FromKeyAll(b, key);
  }

  lemma SeekAtKid(t: Tree, i: nat, key: Key)
    requires IsNode(t) && Sorted(InOrder(t)) && i <= |t.seps|
    requires i > 0 ==> Less(t.seps[i - 1].key, key)
    requires i < |t.seps| ==> Less(key, t.seps[i].key)
    ensures FromKey(InOrder(t), key) == FromKey(InOrder(t.kids[i]), key) + Back(t, i)
  {
    hide InOrder, Front, Back, Less, Sorted;
    var f, k, b := Front(t, i), InOrder(t.kids[i]), Back(t, i);
    GraftOrder(t, i, One(t.kids[i]));
    assert [] + InOrder(t) + [] == InOrder(t);
    GapAtKid([], t, [], i, key);
    assert [] + f == f && b + [] == b && f + k + b == f + (k + b);
    FromKeyBelow(f, k + b, key);
    FromKeyAbove(k, b, key);
  }

  // ----- merging with the commit overlay

  /** The overlay changes still ahead of the iterator. */
  ghost function Ahead(o: seq<Change>, lastKey: Option<Key>, fromSeek: bool): seq<Change> {
    if lastKey.None? then o else ChangesFrom(o, lastKey.value, !fromSeek)
  }

  /** The first overlay change at or after the last key; the key itself counts only right after a seek. */
  method OverlayNext(o: seq<Change>, lastKey: Option<Key>, fromSeek: bool) returns (r: Option<Change>)
    requires Overlay(o)
    ensures r == if Ahead(o, lastKey, fromSeek) == [] then None else Some(Ahead(o, lastKey, fromSeek)[0])
  {
    hide Less;
    if lastKey.None? {
      return if o == [] then None else Some(o[0]);
    }
    var key := lastKey.value;
    var i := 0;
    while i < |o| && Less(o[i].key, key)
      invariant i <= |o| && ChangesFrom(o, key, !fromSeek) == ChangesFrom(o[i..], key, !fromSeek)
    {
      LessAsymmetric(o[i].key, key);
      assert o[i..][1..] == o[i + 1..];
      i := i + 1;
    }
    if i == |o| {
      return None;
    }
    LessTotal(o[i].key, key);
    LessIrreflexive(key);
    if fromSeek || o[i].key != key {
      return Some(o[i]);
    }
    assert o[i..][1..] == o[i + 1..];
    return if i + 1 < |o| then Some(o[i + 1]) else None;
  }

  /** Taking the first change ahead makes its key the last key. */
  lemma {:induction false} AheadStep(o: seq<Change>, lastKey: Option<Key>, fromSeek: bool)
    requires Overlay(o) && Ahead(o, lastKey, fromSeek) != []
    ensures var a := Ahead(o, lastKey, fromSeek); Ahead(o, Some(a[0].key), false) == a[1..] && Overlay(a)
  {
    hide Less;
    var a := Ahead(o, lastKey, fromSeek);
    var n := AheadSuffix(o, lastKey, fromSeek);
    forall i, j | 0 <= i < j < |a| ensures Less(a[i].key, a[j].key) {
      assert a[i] == o[n + i] && a[j] == o[n + j];
    }
    SuffixAfter(o, n, a[0].key);
    LessIrreflexive(a[0].key);
    if |a| > 1 {
      assert Less(a[0].key, a[1].key);
    }
  }

  lemma {:induction false} AheadSuffix(o: seq<Change>, lastKey: Option<Key>, fromSeek: bool) returns (n: nat)
    ensures n <= |o| && Ahead(o, lastKey, fromSeek) == o[n..]
  {
    if lastKey.None? || o == [] || Less(lastKey.value, o[0].key) || (fromSeek && lastKey.value == o[0].key) {
      n := 0;
    } else {
      n := AheadSuffix(o[1..], lastKey, fromSeek);
      assert o[1..][n..] == o[n + 1..];
      n := n + 1;
    }
  }

  /** Skipping up to and including the change with key `k`. */
  lemma {:induction false} SuffixAfter(o: seq<Change>, n: nat, k: Key)
    requires Overlay(o) && n < |o| && o[n].key == k
    ensures ChangesFrom(o, k, true) == o[n + 1..]
  {
    hide Less;
    LessIrreflexive(k);
    if n == 0 {
      if |o| > 1 {
        assert Less(o[0].key, o[1].key);
        assert o[1..][0] == o[1];
      }
    } else {
      LessAsymmetric(o[0].key, k);
      SuffixAfter(o[1..], n - 1, k);
      assert o[1..][n..] == o[n + 1..];
    }
  }

  /** Passing a backend key that lies before every change ahead leaves the changes ahead alone. */
  lemma {:induction false} AheadUnmoved(o: seq<Change>, lastKey: Option<Key>, fromSeek: bool, strict: bool, k: Key)
    requires Overlay(o)
    requires lastKey.Some? ==> Less(lastKey.value, k) || (fromSeek && lastKey.value == k)
    requires Ahead(o, lastKey, fromSeek) == [] || Less(k, Ahead(o, lastKey, fromSeek)[0].key)
    ensures Ahead(o, Some(k), !strict) == Ahead(o, lastKey, fromSeek)
  {
    hide Less;
    if o == [] {
    } else if lastKey.None? || Less(lastKey.value, o[0].key) || (fromSeek && lastKey.value == o[0].key) {
      assert Ahead(o, lastKey, fromSeek) == o;
    } else {
      LessTotal(lastKey.value, o[0].key);
      if o[0].key != lastKey.value {
        if lastKey.value != k {
          LessTransitive(o[0].key, lastKey.value, k);
        }
        LessAsymmetric(o[0].key, k);
        AheadUnmoved(o[1..], lastKey, fromSeek, strict, k);
      } else {
        assert !fromSeek;
        AheadPast(o, lastKey.value, k, strict);
      }
    }
  }

  lemma AheadPast(o: seq<Change>, last: Key, k: Key, strict: bool)
    requires Overlay(o) && o != [] && o[0].key == last && (Less(last, k) || (last == k && strict))
    requires ChangesFrom(o, last, true) == [] || Less(k, ChangesFrom(o, last, true)[0].key)
    ensures ChangesFrom(o, k, strict) == ChangesFrom(o, last, true)
  {
    hide Less;
    SuffixAfter(o, 0, last);
    LessIrreflexive(last);
    if last != k {
      LessAsymmetric(last, k);
    }
    if |o| > 1 {
      assert o[1..][0] == o[1];
    }
  }

  /** Every entry lies beyond the last key; right after a seek it may be the key sought. */
  ghost predicate Beyond(lastKey: Option<Key>, fromSeek: bool, s: seq<Entry>) {
    lastKey.Some? ==>
      forall i :: 0 <= i < |s| ==> Less(lastKey.value, s[i].key) || (fromSeek && lastKey.value == s[i].key)
  }

  lemma BeyondTail(lastKey: Option<Key>, fromSeek: bool, s: seq<Entry>, key: Key, fromSeek': bool)
    requires Sorted(s) && s != [] && key == s[0].key
    ensures Beyond(Some(key), fromSeek', s[1..]) && Sorted(s[1..])
  {
    hide Less;
  }

  lemma BeyondLess(s: seq<Entry>, key: Key)
    requires Sorted(s) && (s == [] || Less(key, s[0].key))
    ensures Beyond(Some(key), false, s)
  {
    hide Less;
    if s != [] {
      AboveFirst(key, s);
    }
  }

  /** Iterates over a tree and an overlay. What it finds when they change meanwhile is for `Renew` to say. */
  class BTreeIterator {
    var backend: BTreeIterState
    var overlay: seq<Change>
    var pending: Option<Option<Entry>>
    var lastKey: Option<Key>
    var fromSeek: bool

    ghost predicate Valid()
      reads this, backend, backend.store
    {
      && backend.Valid() && Overlay(overlay) && (pending == Some(None) ==> backend.Rest() == [])
      && Sorted(Behind()) && Beyond(lastKey, fromSeek, Behind()) && Unmoved()
    }

    /** Before the first key, the walk is at the start of the tree or at its end. */
    ghost predicate Unmoved()
      reads this, backend
    {
      lastKey.None? ==> backend.stack == []
    }

    /** The backend entries not merged yet. */
    ghost function Behind(): seq<Entry>
      requires backend.Valid()
      reads this, backend, backend.store
    {
      if pending.Some? && pending.value.Some? then [pending.value.value] + backend.Rest() else backend.Rest()
    }

    /** The entries this iterator has not yielded yet. */
    ghost function Remaining(): seq<Entry>
      requires Valid()
      reads this, backend, backend.store
    {
      Merge(Ahead(overlay, lastKey, fromSeek), Behind())
    }

    constructor (store: Store, root: Option<Address>, h: nat, overlay: seq<Change>, ghost tree: Tree)
      requires h > 0 && Rooted(store.cells, root, h - 1, tree) && Overlay(overlay)
      ensures Valid() && Remaining() == ApplyAll(InOrder(tree), overlay)
      ensures backend.store == store && backend.tree == tree && this.overlay == overlay && fresh(backend)
    {
      hide Less, InOrder, ApplyAll, Merge, Rooted, Sorted, Overlay, BTreeIterState.Valid, BTreeIterState.Rest;
      backend := new BTreeIterState(store, root, h, tree);
      this.overlay := overlay;
      pending, lastKey, fromSeek := None, None, false;
      new;
      RootedSorted(store.cells, root, h - 1, tree);
      MergeIsApplyAll(overlay, InOrder(tree));
    }

    /** Restarts at the first entry whose key is not below `key`. */
    method Seek(key: Key)
      requires Valid()
      modifies this, backend
      ensures Valid() && Remaining() == FromKey(ApplyAll(InOrder(backend.tree), overlay), key)
      ensures lastKey == Some(key) && fromSeek && backend == old(backend) && overlay == old(overlay)
    {
      hide Less, InOrder, Own, Stored, Shape, Stack, Tails, ApplyAll, Merge, FromKey, ChangesFrom;
      fromSeek := true;
      lastKey := Some(key);
      pending := None;
      backend.Seek(key, false);
      FromKeySorted(InOrder(backend.tree), key);
      MergeIsApplyAll(overlay, InOrder(backend.tree));
      MergeFromKey(overlay, InOrder(backend.tree), key);
    }

    /**
     * A record has been logged and commits have been made since the last call: the tree is opened again and the walk
     * goes on above the last key, though right after a seek nothing has been yielded for it yet. What is then still to
     * come is all from that key on exactly if it is not in the tree or the overlay changes it. A walk that came to the
     * end of a tree without a single key stays there.
     */
    method Renew(overlay: seq<Change>, store: Store, root: Option<Address>, h: nat, ghost tree: Tree)
      requires Unmoved() && Overlay(overlay) && h > 0 && Rooted(store.cells, root, h - 1, tree)
      modifies this
      ensures Valid() && lastKey == old(lastKey) && fromSeek == old(fromSeek) && this.overlay == overlay
      ensures fresh(backend) && backend.store == store && backend.tree == tree
      ensures var all := ApplyAll(InOrder(tree), overlay);
        match lastKey
        case None => Remaining() == if old(backend.nextSeparator) then ApplyAll([], overlay) else all
        case Some(k) =>
          && (!fromSeek ==> Remaining() == AfterKey(all, k))
          && (fromSeek ==> (Remaining() == FromKey(all, k) <==> !Has(InOrder(tree), k) || Mentions(overlay, k)))
          && (fromSeek ==> (Remaining() == AfterKey(all, k) <==> !Puts(overlay, k)))
    {
      hide Less, InOrder, ApplyAll, Merge, FromKey, ChangesFrom, Has, Mentions, Puts, AfterKey, Rooted, Sorted;
      hide Beyond, Overlay;
      hide BTreeIterState.Valid, BTreeIterState.Rest;
      RootedSorted(store.cells, root, h - 1, tree);
      MergeIsApplyAll(overlay, InOrder(tree));
      if lastKey.Some? {
        AfterKeySorted(InOrder(tree), lastKey.value, fromSeek);
        Resumed(overlay, InOrder(tree), lastKey.value);
        MergeAfterKey(overlay, InOrder(tree), lastKey.value);
      } else {
        NothingBeyond(fromSeek, InOrder(tree));
        MergeIsApplyAll(overlay, []);
      }
      var walk := Reopen(store, root, h, tree);
      this.overlay, pending, backend := overlay, None, walk;
    }

    /** A walk over the tree as it is now, above the last key. */
    method Reopen(store: Store, root: Option<Address>, h: nat, ghost tree: Tree) returns (walk: BTreeIterState)
      requires Unmoved() && h > 0 && Rooted(store.cells, root, h - 1, tree)
      ensures fresh(walk) && walk.Valid() && walk.store == store && walk.tree == tree
      ensures (lastKey.None? ==> walk.stack == [])
      ensures walk.Rest() == match lastKey
        case None => if backend.nextSeparator then [] else InOrder(tree)
        case Some(k) => AfterKey(InOrder(tree), k)
    {
      hide Less, InOrder, AfterKey, Rooted, BTreeIterState.Valid, BTreeIterState.Rest;
      walk := new BTreeIterState(store, root, h, tree);
      if lastKey.Some? {
        walk.Seek(lastKey.value, true);
      } else {
        walk.Place(backend.nextSeparator);
      }
    }

    /** The next backend entry: the one put aside earlier, or a new one. */
    method TakeBackend() returns (b: Option<Entry>)
      requires Valid()
      modifies this`pending, backend
      ensures backend.Valid() && pending == None
      ensures b == if old(Behind()) == [] then None else Some(old(Behind())[0])
      ensures backend.Rest() == if old(Behind()) == [] then [] else old(Behind())[1..]
      ensures lastKey.None? && b.None? ==> backend.stack == []
    {
      hide Less, InOrder, Own, Stored, Shape, Stack, Tails, Left, Sorted;
      if pending.Some? {
        b := pending.value;
        pending := None;
      } else {
        b := backend.Next();
      }
    }

    /** The next entry of the merged sequence. */
    method Next() returns (r: Option<Entry>)
      requires Valid()
      modifies this, backend
      ensures Valid()
      ensures r == if old(Remaining()) == [] then None else Some(old(Remaining())[0])
      ensures Remaining() == if old(Remaining()) == [] then [] else old(Remaining())[1..]
      ensures backend == old(backend) && overlay == old(overlay)
      decreases |Ahead(overlay, lastKey, fromSeek)|, 0
    {
      hide Less, InOrder, Own, Stored, Shape, Stack, Tails, Left, Rooted, ChangesFrom;
      ghost var a, s := Ahead(overlay, lastKey, fromSeek), Behind();
      var o := OverlayNext(overlay, lastKey, fromSeek);
      if o.Some? {
        AheadStep(overlay, lastKey, fromSeek);
      }
      var b := TakeBackend();
      if o.Some? && (b.None? || Less(o.value.key, b.value.key)) {
        BeyondLess(s, o.value.key);
        pending := Some(b);
        r := YieldOverlay(o.value, a, s);
      } else if o.Some? && o.value.key == b.value.key {
        BeyondTail(lastKey, fromSeek, s, b.value.key, false);
        LessIrreflexive(b.value.key);
        r := YieldOverlay(o.value, a, s[1..]);
      } else if b.Some? {
        if o.Some? {
          LessTotal(o.value.key, b.value.key);
        }
        BeyondTail(lastKey, fromSeek, s, b.value.key, fromSeek);
        AheadUnmoved(overlay, lastKey, fromSeek, !fromSeek, b.value.key);
        lastKey := Some(b.value.key);
        r := b;
      } else {
        pending := Some(None);
        r := None;
      }
    }

    /** Moves past an overlay change: its entry is next, unless it deletes. */
    method YieldOverlay(c: Change, ghost a: seq<Change>, ghost s: seq<Entry>) returns (r: Option<Entry>)
      requires a != [] && c == a[0] && Ahead(overlay, Some(c.key), false) == a[1..]
      requires backend.Valid() && Overlay(overlay) && (pending == Some(None) ==> backend.Rest() == [])
      requires s == Behind() && Sorted(s) && Beyond(Some(c.key), false, s)
      modifies this, backend
      ensures Valid()
      ensures var m := Inserted(c) + Merge(a[1..], s);
              r == (if m == [] then None else Some(m[0])) && Remaining() == if m == [] then [] else m[1..]
      ensures backend == old(backend) && overlay == old(overlay)
      decreases |a| - 1, 1
    {
      hide Less, InOrder, Own, Stored, Shape, Stack, Tails, Left, Rooted, ChangesFrom, Merge;
      lastKey := Some(c.key);
      fromSeek := false;
      if c.value.Some? {
        r := Some(Entry(c.key, c.value.value));
      } else {
        assert Inserted(c) + Merge(a[1..], s) == Merge(a[1..], s);
        r := Next();
      }
    }
  }

  /**
   * A key is sought, a record is logged, and the next entry is asked for. It is the first one from that key on, except
   * that an entry with that very key is skipped exactly if it comes from the tree alone.
   */
  method SeekThenRecord(it: BTreeIterator, key: Key, store: Store, root: Option<Address>, h: nat, ghost tree: Tree)
    returns (r: Option<Entry>)
    requires it.Valid() && h > 0 && Rooted(store.cells, root, h - 1, tree)
    modifies it, it.backend
    ensures it.Valid() && it.overlay == old(it.overlay)
    ensures var all := FromKey(ApplyAll(InOrder(tree), it.overlay), key);
      if Has(InOrder(tree), key) && !Mentions(it.overlay, key)
      then all != [] && all[0].key == key && r == if |all| == 1 then None else Some(all[1])
      else r == if all == [] then None else Some(all[0])
  {
    hide Less, InOrder, Own, Stored, Shape, Stack, Tails, Left, Rooted, ApplyAll, Merge, FromKey, Ahead, Has, Mentions;
    hide Puts;
    hide BTreeIterator.Behind, BTreeIterState.Valid, Overlay;
    it.Seek(key);
    it.Renew(it.overlay, store, root, h, tree);
    r := it.Next();
    PutsMentions(it.overlay, key);
  }

  lemma PutsMentions(o: seq<Change>, k: Key)
    ensures Puts(o, k) ==> Mentions(o, k)
  {
  }

  lemma {:induction false} FromKeySorted(s: seq<Entry>, k: Key)
    requires Sorted(s)
    ensures Sorted(FromKey(s, k)) && Beyond(Some(k), true, FromKey(s, k))
  {
    hide Less;
    if s != [] && Less(s[0].key, k) {
      FromKeySorted(s[1..], k);
    } else {
      forall i | 0 <= i < |s| ensures Less(k, s[i].key) || k == s[i].key {
        LessTotal(k, s[i].key);
        if i > 0 && Less(s[i].key, k) {
          LessTransitive(s[0].key, s[i].key, k);
        }
      }
    }
  }

  lemma AfterKeySorted(s: seq<Entry>, k: Key, fromSeek: bool)
    requires Sorted(s)
    ensures Sorted(AfterKey(s, k)) && Beyond(Some(k), fromSeek, AfterKey(s, k))
  {
    hide Less, FromKey;
    FromKeyHas(s, k);
    Parts([], FromKey(s, k), k);
  }

  lemma NothingBeyond(fromSeek: bool, s: seq<Entry>)
    ensures Sorted([]) && Beyond(None, fromSeek, []) && Beyond(None, fromSeek, s)
  {
  }

  lemma RootedSorted(c: Cells, root: Option<Address>, depth: nat, tree: Tree)
    requires Rooted(c, root, depth, tree)
    ensures Sorted(InOrder(tree))
  {
    hide InOrder, Sorted;
  }

  /** Seeking a key and then asking for entries until there are none yields the merged contents from that key on. */
  method CollectFrom(it: BTreeIterator, key: Key) returns (all: seq<Entry>)
    requires it.Valid()
    modifies it, it.backend
    ensures it.Valid() && all == FromKey(ApplyAll(InOrder(it.backend.tree), it.overlay), key)
    ensures it.backend == old(it.backend) && it.overlay == old(it.overlay)
  {
    hide Less, InOrder, Own, Stored, Shape, Stack, Tails, Left, Rooted, ApplyAll, Merge, FromKey, Ahead;
    hide BTreeIterator.Behind, BTreeIterState.Valid;
    it.Seek(key);
    ghost var whole := it.Remaining();
    all := [];
    var more := true;
    while more
      invariant it.Valid() && whole == all + it.Remaining() && (!more ==> it.Remaining() == [])
      invariant it.backend == old(it.backend) && it.overlay == old(it.overlay)
      decreases |it.Remaining()|, more
    {
      var r := it.Next();
      if r.Some? {
        all := all + [r.value];
      } else {
        more := false;
      }
    }
  }
}
