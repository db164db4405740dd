/** One recursive pass over the tree that consumes a sorted run of changes. */
module Changes {
  import opened Keys
  import opened Entries
  import opened Trees
  import opened Nodes
  import opened Stores
  import opened Pairs
  import opened Rebalancing
  import opened Kids

  /** Writes a changed child back into its parent; `c` is the store before the child was changed. */
  method PutBack(self: Node, i: nat, child: Node, h: nat, store: Store, ghost t: Tree, ghost res: Result,
                 ghost c: Cells)
    returns (ghost y: Tree)
    requires store.Valid() && h > 1 && Live(self, t, h, c) && i < |t.kids| == |t.seps| + 1 && Apart(self, child)
    requires t.kids[i].Branch? && IsBranchAt(store.cells, t.kids[i])
    requires Moves(c, store.cells, t.kids[i], res) && Kept(res, store.cells)
    requires res.t.addr == t.kids[i].addr && Live(child, res.t, h - 1, store.cells)
    modifies store, self`changed, self.children
    ensures store.Valid() && y.Branch? && y == res.t.(addr := y.addr)
    ensures self.Is(Recs(t.seps), Ptrs(t.kids)[i := Ptr(y)])
    ensures Held(Grafted(t, i, res.(t := y)), store.cells) && Moves(c, store.cells, t, One(Grafted(t, i, res.(t := y))))
    ensures store.cells[t.addr] == c[t.addr]
    ensures Settled(res.(t := y), store.cells)
    ensures self.changed || (Ptrs(t.kids)[i := Ptr(y)] == Ptrs(t.kids) && !old(self.changed))
  {
    hide Own, SepsStored, KidsStored, Stored, NoDup, From, Neat, Framed, Recs, Node.SepsAre, Node.Bare, Grafted;
    hide Settled;
    ghost var d := store.cells;
    KidPtr(t, i);
    y := WriteChild(self, i, child, h - 1, store, Ptrs(t.kids), res.t);
    KidWritten(t.kids[i], res, y, c, d, store.cells);
    Graft(t, i, res.(t := y), c, store.cells);
  }

  lemma KidPtr(t: Tree, i: nat)
    requires t.Branch? && i < |t.kids| && t.kids[i].Branch?
    ensures Ptrs(t.kids)[i] == Some(t.kids[i].addr)
  {
  }

  // ----- taking out the greatest entry

  /** A node with one more separator, and no child, at its right end. */
  ghost function Snoc(u: Tree, m: Sep): Tree
    requires u.Branch?
  {
    Branch(u.addr, u.seps + [m], u.kids + [Nil])
  }

  lemma SnocOrder(u: Tree, m: Sep)
    requires IsNode(u)
    ensures InOrder(Snoc(u, m)) == InOrder(u) + [Item(m)]
  {
    assert u.seps + [m] == u.seps + [m] + [];
    FlatJoin(u.seps, u.kids, m, [], [Nil]);
    assert Flat([], [Nil]) == [];
  }

  lemma SnocOwn(u: Tree, m: Sep)
    requires u.Branch?
    ensures Own(Snoc(u, m)) == Owned(Two(u, m, Nil))
  {
    hide Own, OwnSeps, OwnKids;
    OwnSepsConcat(u.seps, [m]);
    OwnKidsConcat(u.kids, [Nil]);
    OwnOne(m, Nil);
    OwnParts(u);
    OwnParts(Snoc(u, m));
    OwnNil();
  }

  lemma OwnNil()
    ensures Own(Nil) == multiset{}
  {
  }

  lemma SnocKept(u: Tree, m: Sep, c: Cells)
    requires u.Branch? && Held(Snoc(u, m), c)
    ensures Kept(Two(u, m, Nil), c)
  {
    hide Own, Owned;
    SnocOwn(u, m);
    OwnedIs(Two(u, m, Nil));
    NoDupPart(Own(u), Owned(Two(u, m, Nil)));
    var s := Snoc(u, m);
    assert s.seps[|u.seps|] == m;
    assert forall i :: 0 <= i < |u.seps| ==> u.seps[i] == s.seps[i];
    assert forall i :: 0 <= i < |u.kids| ==> u.kids[i] == s.kids[i];
  }

  lemma MovesSnoc(c: Cells, d: Cells, t: Tree, u: Tree, m: Sep)
    requires u.Branch? && Moves(c, d, t, One(Snoc(u, m)))
    ensures Moves(c, d, t, Two(u, m, Nil))
  {
    hide Own, Owned;
    SnocOwn(u, m);
    OwnedOne(Snoc(u, m));
  }

  /** Rebalancing what is left does not disturb the separator that was taken out. */
  lemma TakenKept(c: Cells, d: Cells, e: Cells, t: Tree, v: Tree, m: Sep, u: Tree)
    requires Moves(c, d, t, Two(v, m, Nil)) && Kept(Two(v, m, Nil), d)
    requires Moves(d, e, v, One(u)) && v.addr == t.addr && Held(u, e) && u.addr == t.addr
    ensures Moves(c, e, t, Two(u, m, Nil)) && Kept(Two(u, m, Nil), e)
  {
    hide Own, SepsStored, KidsStored, Stored, Body, Owned, Beside;
    OwnedIs(Two(v, m, Nil));
    OwnedIs(Two(u, m, Nil));
    OwnedOne(u);
    BesideSame(Two(v, m, Nil), u);
    var rest := Beside(Two(v, m, Nil));
    BesideInCells(Two(v, m, Nil), d);
    NoDupReplace(d, rest, Own(v), Own(u));
    OwnBody(v);
    FramedMore(d, e, multiset{v.addr}, Body(v));
    RestAgrees(d, e, rest, Own(v));
    BesideFrame(Two(v, m, Nil), d, e);
    TakenFrames(c, d, e, t, v, rest, u);
  }

  lemma TakenFrames(c: Cells, d: Cells, e: Cells, t: Tree, v: Tree, rest: multiset<Address>, u: Tree)
    requires t.Branch? && v.Branch? && Framed(c, d, Body(t)) && From(c, Own(t), rest + Own(v))
    requires Neat(c, d, Own(t), rest + Own(v)) && NoDup(rest + Own(v))
    requires Framed(d, e, Body(v)) && From(d, Own(v), Own(u)) && Neat(d, e, Own(v), Own(u)) && v.addr == t.addr
    ensures Framed(c, e, Body(t)) && From(c, Own(t), rest + Own(u)) && Neat(c, e, Own(t), rest + Own(u))
  {
    hide Own, Body;
    OwnBody(t);
    OwnBody(v);
    assert multiset{v.addr} + (rest + Body(v)) == rest + Own(v);
    FramedMore(d, e, rest, Body(v));
    FromRest(d, rest, Own(v), Own(u));
    FrameTrans(c, d, e, t.addr, Body(t), rest + Body(v), rest + Own(u));
  }

  lemma LeafLast(t: Tree)
    requires Shape(t, 1, 1)
    ensures var n := |t.seps|; var u := Branch(t.addr, t.seps[..n - 1], t.kids[..n]);
            && t == Snoc(u, t.seps[n - 1]) && Shape(u, 1, 0)
            && Recs(u.seps) == Recs(t.seps)[..n - 1] && Ptrs(u.kids) == Ptrs(t.kids)[..n]
            && AllNone(Ptrs(t.kids))
  {
    var n := |t.seps|;
    assert t.seps == t.seps[..n - 1] + [t.seps[n - 1]];
    assert t.kids[n] == Nil;
    assert t.kids == t.kids[..n] + [Nil];
  }

  method RemoveLast(self: Node, h: nat, store: Store, ghost t: Tree)
    returns (need: bool, sep: SepRec, ghost u: Tree, ghost m: Sep)
    requires store.Valid() && h >= 1 && Live(self, t, h, store.cells) && Shape(t, h, MIDDLE)
    modifies store, self`changed, self.separators, self.children
    ensures store.Valid() && Live(self, u, h, store.cells) && u.addr == t.addr && sep == Rec(m)
    ensures Kept(Two(u, m, Nil), store.cells) && Moves(old(store.cells), store.cells, t, Two(u, m, Nil))
    ensures InOrder(t) == InOrder(u) + [Item(m)]
    ensures Shape(u, h, MIDDLE - 1) && need == (|u.seps| == MIDDLE - 1)
    decreases h, 1
  {
    if h == 1 {
      need, sep, u, m := RemoveLastLeaf(self, store, t);
    } else {
      need, sep, u, m := RemoveLastInner(self, h, store, t);
    }
  }

  method RemoveLastLeaf(self: Node, store: Store, ghost t: Tree)
    returns (need: bool, sep: SepRec, ghost u: Tree, ghost m: Sep)
    requires store.Valid() && Live(self, t, 1, store.cells) && Shape(t, 1, MIDDLE)
    modifies self`changed, self.separators, self.children
    ensures Live(self, u, 1, store.cells) && u.addr == t.addr && sep == Rec(m)
    ensures Kept(Two(u, m, Nil), store.cells) && Moves(store.cells, store.cells, t, Two(u, m, Nil))
    ensures InOrder(t) == InOrder(u) + [Item(m)]
    ensures Shape(u, 1, MIDDLE - 1) && need == (|u.seps| == MIDDLE - 1)
  {
    hide Own, SepsStored, KidsStored, Stored, NoDup, From, Neat, Framed, Recs, Ptrs, InOrder;
    LeafLast(t);
    ghost var n := |t.seps|;
    u, m := Branch(t.addr, t.seps[..n - 1], t.kids[..n]), t.seps[n - 1];
    var s, child := self.TakeLast(false, Recs(t.seps), Ptrs(t.kids));
    sep := s;
    RecAt(t.seps, n - 1);
    need := !self.HasSeparator(MIDDLE - 1);
    SnocKept(u, m, store.cells);
    MovesRefl(store.cells, t);
    MovesSnoc(store.cells, store.cells, t, u, m);
    SnocOrder(u, m);
  }

  lemma RecAt(ss: seq<Sep>, i: nat)
    requires i < |ss|
    ensures Recs(ss)[i] == Rec(ss[i])
  {
  }

  method RemoveLastInner(self: Node, h: nat, store: Store, ghost t: Tree)
    returns (need: bool, sep: SepRec, ghost u: Tree, ghost m: Sep)
    requires store.Valid() && h > 1 && Live(self, t, h, store.cells) && Shape(t, h, MIDDLE)
    modifies store, self`changed, self.separators, self.children
    ensures store.Valid() && Live(self, u, h, store.cells) && u.addr == t.addr && sep == Rec(m)
    ensures Kept(Two(u, m, Nil), store.cells) && Moves(old(store.cells), store.cells, t, Two(u, m, Nil))
    ensures InOrder(t) == InOrder(u) + [Item(m)]
    ensures Shape(u, h, MIDDLE - 1) && need == (|u.seps| == MIDDLE - 1)
    decreases h, 0
  {
    hide Own, SepsStored, KidsStored, Stored, NoDup, From, Neat, Framed, Recs, Ptrs, InOrder, Moves, Kept, Node.Bare;
    hide Node.KidsAre;
    ghost var c := store.cells;
    var n := self.NumberSeparator(Recs(t.seps), Ptrs(t.kids));
    KidReady(t, h, MIDDLE, n, c);
    var child := FetchChild(self, n, h, store, t);
    ghost var k;
    need, sep, k, m := RemoveLast(child, h - 1, store, t.kids[n]);
    KidCell(t.kids[n], Two(k, m, Nil), c, store.cells);
    ghost var y := PutBack(self, n, child, h, store, t, Two(k, m, Nil), c);
    ghost var v := Grafted(t, n, One(y));
    ghost var d := store.cells;
    TakenOut(t, h, n, k, y, m, c, d);
    if need {
      u := Rebalance(self, h, n, store, v);
      TakenKept(c, d, store.cells, t, v, m, u);
      need := !self.HasSeparator(MIDDLE - 1);
    } else {
      u := v;
    }
  }

  lemma KidReady(t: Tree, h: nat, lo: nat, i: nat, c: Cells)
    requires Held(t, c) && h > 1 && Shape(t, h, lo) && i < |t.kids|
    ensures t.kids[i].Branch? && Stored(c, t.kids[i]) && NoDup(Own(t.kids[i])) && IsBranchAt(c, t.kids[i])
    ensures Shape(t.kids[i], h - 1, MIDDLE) && Shape(t.kids[i], h - 1, 0)
  {
    hide Own, SepsStored;
    KidNoDup(t, i);
    ShapeLower(t.kids[i], h - 1, MIDDLE, 0);
  }

  /** Changing a node in memory leaves its own record alone. */
  lemma KidCell(kid: Tree, res: Result, c: Cells, d: Cells)
    requires IsBranchAt(c, kid) && NoDup(Own(kid)) && Moves(c, d, kid, res)
    ensures IsBranchAt(d, kid)
  {
    hide Body, Owned;
    OwnBody(kid);
    assert Own(kid)[kid.addr] <= 1;
  }

  lemma TakenOut(t: Tree, h: nat, n: nat, k: Tree, y: Tree, m: Sep, c: Cells, d: Cells)
    requires h > 1 && Shape(t, h, MIDDLE) && n == |t.seps| && Held(t, c)
    requires k.Branch? && y.Branch? && y == k.(addr := y.addr) && Shape(k, h - 1, MIDDLE - 1)
    requires Held(Grafted(t, n, Two(y, m, Nil)), d) && Moves(c, d, t, One(Grafted(t, n, Two(y, m, Nil))))
    requires InOrder(t.kids[n]) == InOrder(k) + [Item(m)]
    ensures var v := Grafted(t, n, One(y));
            && Kept(Two(v, m, Nil), d) && Moves(c, d, t, Two(v, m, Nil)) && Held(v, d) && v.addr == t.addr
            && InOrder(t) == InOrder(v) + [Item(m)]
            && Recs(v.seps) == Recs(t.seps) && Ptrs(v.kids) == Ptrs(t.kids)[n := Ptr(y)]
            && |v.seps| == |t.seps| && (if |k.seps| == MIDDLE - 1 then Short(v, h, n) else Shape(v, h, MIDDLE))
  {
    hide Own, SepsStored, KidsStored, Stored, NoDup, From, Neat, Framed, Recs, Ptrs, InOrder, Moves, Kept, Front, Back;
    var v := Grafted(t, n, One(y));
    var w := Grafted(t, n, Two(y, m, Nil));
    assert w == Snoc(v, m);
    SnocKept(v, m, d);
    KeptHeld(Two(v, m, Nil), d);
    MovesSnoc(c, d, t, v, m);
    SameButAddr(k, y, 0, 0);
    GraftOrder(t, n, Two(y, m, Nil));
    NilOrder();
    SnocOrder(v, m);
    GraftRecords(t, n, One(y));
    GraftShape(t, h, MIDDLE, n, k, y);
  }

  lemma KeptHeld(res: Result, d: Cells)
    requires Kept(res, d)
    ensures Held(res.t, d)
  {
  }

  lemma NilOrder()
    ensures InOrder(Nil) == []
  {
  }

  /** Replacing one child by a balanced or a short one. */
  lemma GraftShape(t: Tree, h: nat, lo: nat, n: nat, k: Tree, y: Tree)
    requires h > 1 && Shape(t, h, lo) && n < |t.kids|
    requires k.Branch? && y.Branch? && y == k.(addr := y.addr) && Shape(k, h - 1, MIDDLE - 1)
    ensures var v := Grafted(t, n, One(y));
            && |v.seps| == |t.seps| && |v.kids| == |t.kids|
            && (if |k.seps| == MIDDLE - 1 then |t.seps| > 0 ==> Short(v, h, n) else Shape(v, h, lo))
  {
    var v := Grafted(t, n, One(y));
    assert forall i :: 0 <= i < |t.kids| && i != n ==> v.kids[i] == t.kids[i] && Shape(t.kids[i], h - 1, MIDDLE);
    assert v.kids[n] == y && Shape(y, h - 1, MIDDLE - 1);
    if |k.seps| != MIDDLE - 1 {
      ShapeHigher(y, h - 1, MIDDLE - 1, MIDDLE);
    }
  }
}
