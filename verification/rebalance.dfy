/** Loading and writing back children, and repairing a child that lost one separator too many. */
module Rebalancing {
  import opened Keys
  import opened Entries
  import opened Trees
  import opened Nodes
  import opened Stores
  import opened Pairs

  lemma KidNoDup(t: Tree, i: nat)
    requires t.Branch? && NoDup(Own(t)) && i < |t.kids|
    ensures NoDup(Own(t.kids[i]))
    ensures t.kids[i].Branch? ==> t.kids[i].addr in Own(t.kids[i])
  {
    hide OwnSeps, OwnKids;
    OwnKidsMember(t.kids, i);
    forall a ensures Own(t.kids[i])[a] <= 1 {
      assert Own(t)[a] <= 1;
    }
  }

  lemma LeafPtrs(t: Tree)
    requires Shape(t, 1, 0)
    ensures AllNone(Ptrs(t.kids))
  {
  }

  method FetchChild(self: Node, i: nat, h: nat, store: Store, ghost t: Tree) returns (child: Node)
    requires t.Branch? && self.KidsAre(Ptrs(t.kids)) && h > 1 && i < |t.kids|
    requires Stored(store.cells, t.kids[i]) && NoDup(Own(t.kids[i])) && Shape(t.kids[i], h - 1, 0)
    ensures fresh(child) && fresh(child.separators) && fresh(child.children)
    ensures Live(child, t.kids[i], h - 1, store.cells) && !child.changed
  {
    hide Own, SepsStored, KidsStored, AllBalanced;
    ghost var k := t.kids[i];
    if h == 2 {
      LeafPtrs(k);
    }
    assert self.children[i] == Ptrs(t.kids)[i];
    var record := store.cells[self.children[i].value];
    child := new Node.FromRecord(record.seps, record.kids);
  }

  /** Writes a changed child over its old record; if that moves it, the parent's pointer follows. */
  method WriteChild(self: Node, i: nat, child: Node, h: nat, store: Store,
                    ghost ptrs: seq<Option<Address>>, ghost x: Tree) returns (ghost y: Tree)
    requires store.Valid() && self.KidsAre(ptrs) && i < |ptrs| && Apart(self, child)
    requires Live(child, x, h, store.cells) && ptrs[i] == Some(x.addr) && store.cells[x.addr].NodeBlob?
    modifies store, self`changed, self.children
    ensures store.Valid() && x.Branch? && y.Branch? && y == x.(addr := y.addr)
    ensures Stored(store.cells, y) && NoDup(Own(y)) && self.KidsAre(ptrs[i := Ptr(y)])
    ensures Framed(old(store.cells), store.cells, multiset{x.addr}) && From(old(store.cells), Own(x), Own(y))
    ensures Neat(old(store.cells), store.cells, Own(x), Own(y))
    ensures (old(self.changed) ==> self.changed) && (self.changed || (y == x && !old(self.changed)))
  {
    hide SepsStored, KidsStored, Recs, Ptrs;
    ghost var c := store.cells;
    y := x;
    if child.changed {
      var record := child.ToRecord(Recs(x.seps), Ptrs(x.kids));
      var at := self.children[i].value;
      var moved := store.WriteExisting(at, record);
      if moved.Some? {
        self.changed := true;
        self.children[i] := moved;
        y := x.(addr := moved.value);
      }
      Rewritten(x, y.addr, c, store.cells);
    }
  }

  lemma Rewritten(x: Tree, at: Address, c: Cells, d: Cells)
    requires Held(x, c)
    requires at == x.addr ==> d == c[at := NodeBlob(Recs(x.seps), Ptrs(x.kids))]
    requires at != x.addr ==> at !in c && d == (c - {x.addr})[at := NodeBlob(Recs(x.seps), Ptrs(x.kids))]
    ensures Stored(d, x.(addr := at)) && NoDup(Own(x.(addr := at)))
    ensures Framed(c, d, multiset{x.addr}) && From(c, Own(x), Own(x.(addr := at)))
    ensures Neat(c, d, Own(x), Own(x.(addr := at)))
  {
    hide OwnSeps, OwnKids, Own, Recs, Ptrs, SepsStored, KidsStored;
    SepsInCells(c, x.seps);
    KidsInCells(c, x.kids);
    var body := OwnSeps(x.seps) + OwnKids(x.kids);
    OwnParts(x);
    OwnParts(x.(addr := at));
    BodyKept(x, body, c, d);
    NoDupReplace(c, body, multiset{x.addr}, multiset{at});
    FromRest(c, body, multiset{x.addr}, multiset{at});
  }

  lemma BodyKept(x: Tree, body: multiset<Address>, c: Cells, d: Cells)
    requires Held(x, c) && body == OwnSeps(x.seps) + OwnKids(x.kids)
    requires Framed(c, d, multiset{x.addr})
    ensures NoDup(body + multiset{x.addr}) && SepsStored(d, x.seps) && KidsStored(d, x.kids)
  {
    hide OwnSeps, OwnKids, Stored, SepsStored, KidsStored;
    assert Own(x) == body + multiset{x.addr};
    RestAgrees(c, d, body, multiset{x.addr});
    AgreeParts(c, d, OwnSeps(x.seps), OwnKids(x.kids));
    SepsFrame(c, d, x.seps);
    KidsFrame(c, d, x.kids);
  }

  // ----- writing back two siblings

  lemma HeldFrame(x: Tree, c: Cells, d: Cells)
    requires Held(x, c) && Agree(c, d, Own(x))
    ensures Held(x, d) && d[x.addr] == c[x.addr]
  {
    hide Own, OwnSeps, OwnKids, SepsStored, KidsStored;
    OwnParts(x);
    AgreeParts(c, d, OwnSeps(x.seps) + OwnKids(x.kids), multiset{x.addr});
    AgreeParts(c, d, OwnSeps(x.seps), OwnKids(x.kids));
    SepsFrame(c, d, x.seps);
    KidsFrame(c, d, x.kids);
  }

  /** Rewriting one sibling leaves the other and the separator between them alone. */
  lemma SideWrite(x: Tree, y: Tree, m: Sep, o: Tree, c: Cells, d: Cells)
    requires x.Branch? && NoDup(multiset{m.at} + Own(o) + Own(x)) && Held(o, c) && SepsStored(c, [m])
    requires x.addr in Own(x) && Framed(c, d, multiset{x.addr}) && From(c, Own(x), Own(y)) && Neat(c, d, Own(x), Own(y))
    requires NoDup(Own(y))
    ensures NoDup(multiset{m.at} + Own(o) + Own(y)) && Held(o, d) && d[o.addr] == c[o.addr] && SepsStored(d, [m])
    ensures From(c, multiset{m.at} + Own(o) + Own(x), multiset{m.at} + Own(o) + Own(y))
    ensures Neat(c, d, multiset{m.at} + Own(o) + Own(x), multiset{m.at} + Own(o) + Own(y))
    ensures Stored(c, o) ==> Stored(d, o)
  {
    hide Own, OwnSeps, OwnKids, Stored, KidsStored, Neat, From;
    var rest := multiset{m.at} + Own(o);
    NeatRest(c, d, rest, Own(x), Own(y));
    FramedMore(c, d, Own(x) - multiset{x.addr}, multiset{x.addr});
    assert Own(x) == Own(x) - multiset{x.addr} + multiset{x.addr};
    RestAgrees(c, d, rest, Own(x));
    AgreeParts(c, d, multiset{m.at}, Own(o));
    HeldInCells(o, c);
    assert [m][0] == m;
    NoDupReplace(c, rest, Own(x), Own(y));
    FromRest(c, rest, Own(x), Own(y));
    HeldFrame(o, c, d);
    if Stored(c, o) {
      StoredFrame(c, d, o);
    }
  }

  lemma HeldInCells(x: Tree, c: Cells)
    requires Held(x, c)
    ensures forall a :: a in Own(x) ==> a in c
  {
    hide Own, OwnSeps, OwnKids, SepsStored, KidsStored;
    OwnParts(x);
    SepsInCells(c, x.seps);
    KidsInCells(c, x.kids);
  }

  ghost predicate IsBranchAt(c: Cells, t: Tree) {
    t.Branch? && t.addr in c && c[t.addr].NodeBlob?
  }

  method WritePair(self: Node, a: nat, left: Node, right: Node, h: nat, store: Store,
                   ghost seps: seq<SepRec>, ghost ptrs: seq<Option<Address>>, ghost q: Pair) returns (ghost w: Pair)
    requires store.Valid() && self.Is(seps, ptrs) && a + 1 < |ptrs| && Apart(self, left) && Apart(self, right)
    requires PairHeld(q, store.cells) && IsBranchAt(store.cells, q.l) && IsBranchAt(store.cells, q.r)
    requires Live(left, q.l, h, store.cells) && Live(right, q.r, h, store.cells)
    requires ptrs[a] == Some(q.l.addr) && ptrs[a + 1] == Some(q.r.addr)
    modifies store, self`changed, self.children
    ensures store.Valid() && w.l.Branch? && w.r.Branch?
    ensures w == Pair(q.l.(addr := w.l.addr), q.m, q.r.(addr := w.r.addr)) && PairStored(w, store.cells)
    ensures self.Is(seps, ptrs[a := Ptr(w.l)][a + 1 := Ptr(w.r)])
    ensures Framed(old(store.cells), store.cells, multiset{q.l.addr, q.r.addr})
    ensures From(old(store.cells), PairOwn(q), PairOwn(w))
    ensures Neat(old(store.cells), store.cells, PairOwn(q), PairOwn(w))
    ensures old(self.changed) ==> self.changed
  {
    hide Own, SepsStored, KidsStored, Stored, Held, NoDup, From, Neat, Framed, Node.SepsAre, Node.KidsAre, Node.Bare;
    ghost var c0 := store.cells;
    OwnAddr(q.l);
    assert PairOwn(q) == multiset{q.m.at} + Own(q.r) + Own(q.l);
    ghost var l := WriteChild(self, a, left, h, store, ptrs, q.l);
    ghost var c1 := store.cells;
    SideWrite(q.l, l, q.m, q.r, c0, c1);
    ghost var r := WriteChild(self, a + 1, right, h, store, ptrs[a := Ptr(l)], q.r);
    w := Pair(l, q.m, r);
    PairWritten(q, w, c0, c1, store.cells);
  }

  /** One child has been stored anew, and then the other. */
  lemma PairWritten(q: Pair, w: Pair, c0: Cells, c1: Cells, c2: Cells)
    requires q.l.Branch? && q.r.Branch? && w.l.Branch? && w.r.Branch? && w.m == q.m && PairHeld(q, c0)
    requires Stored(c1, w.l) && NoDup(Own(w.l)) && Stored(c2, w.r) && NoDup(Own(w.r))
    requires Framed(c0, c1, multiset{q.l.addr}) && From(c0, Own(q.l), Own(w.l)) && Neat(c0, c1, Own(q.l), Own(w.l))
    requires Framed(c1, c2, multiset{q.r.addr}) && From(c1, Own(q.r), Own(w.r)) && Neat(c1, c2, Own(q.r), Own(w.r))
    ensures PairStored(w, c2) && Framed(c0, c2, multiset{q.l.addr, q.r.addr})
    ensures From(c0, PairOwn(q), PairOwn(w)) && Neat(c0, c2, PairOwn(q), PairOwn(w))
  {
    hide Own, SepsStored, KidsStored, Stored, Held, NoDup, From, Neat, Framed, PairOwn;
    var v := Pair(w.l, q.m, q.r);
    PairOwns(q);
    PairOwns(v);
    PairOwns(w);
    SideWrite(q.l, w.l, q.m, q.r, c0, c1);
    StoredHeld(w.l, c1);
    SideWrite(q.r, w.r, q.m, w.l, c1, c2);
    FrameTwo(c0, c1, c2, multiset{q.l.addr}, multiset{q.r.addr}, PairOwn(q), PairOwn(v), PairOwn(w));
  }

  lemma PairOwns(p: Pair)
    requires p.l.Branch? && p.r.Branch?
    ensures PairOwn(p) == multiset{p.m.at} + Own(p.l) + Own(p.r) == multiset{p.m.at} + Own(p.r) + Own(p.l)
    ensures p.l.addr in Own(p.l) && multiset{p.l.addr} <= PairOwn(p)
    ensures p.r.addr in Own(p.r) && multiset{p.r.addr} <= PairOwn(p)
    ensures multiset{p.l.addr} + multiset{p.r.addr} == multiset{p.l.addr, p.r.addr}
  {
    hide Own;
    OwnAddr(p.l);
    OwnAddr(p.r);
  }

  lemma OwnAddr(x: Tree)
    requires x.Branch?
    ensures x.addr in Own(x)
  {
  }

  lemma StoredHeld(x: Tree, c: Cells)
    requires x.Branch? && Stored(c, x) && NoDup(Own(x))
    ensures Held(x, c)
  {
  }

  lemma FrameTwo(c0: Cells, c1: Cells, c2: Cells, m1: multiset<Address>, m2: multiset<Address>,
                 o: multiset<Address>, p: multiset<Address>, n: multiset<Address>)
    requires Framed(c0, c1, m1) && Framed(c1, c2, m2) && From(c0, o, p) && Neat(c0, c1, o, p) && From(c1, p, n)
    requires Neat(c1, c2, p, n)
    requires m1 <= o && m2 <= p
    ensures Framed(c0, c2, m1 + m2) && From(c0, o, n) && Neat(c0, c2, o, n)
  {
    forall a | a in n ensures a in o || a !in c0 {
      if a !in p && a in c0 {
        assert a in m1;
      }
    }
  }

  // ----- rebalancing

  /** Child `at` of `t` is short of one separator; the other children are balanced. */
  ghost predicate Short(t: Tree, h: nat, at: nat) {
    && h > 1 && t.Branch? && 1 <= |t.seps| <= ORDER && |t.kids| == |t.seps| + 1 && at < |t.kids|
    && (forall i :: 0 <= i < |t.kids| && i != at ==> Shape(t.kids[i], h - 1, MIDDLE))
    && Shape(t.kids[at], h - 1, MIDDLE - 1) && |t.kids[at].seps| == MIDDLE - 1
  }

  /** `u` has balanced children and at most one separator less than `t`. */
  ghost predicate Repaired(t: Tree, u: Tree, h: nat) {
    && t.Branch? && u.Branch? && u.addr == t.addr && h > 1
    && |t.seps| - 1 <= |u.seps| <= |t.seps| && |u.kids| == |u.seps| + 1 && AllBalanced(u.kids, h - 1)
  }

  /**
   * How a child that is short is helped: by the left sibling if that can spare a separator, else by the right one, else
   * by a merge with the right one, or with the left one if it is the last child.
   */
  ghost predicate Chosen(t: Tree, at: nat, u: Tree) {
    && t.Branch? && u.Branch? && at <= |t.seps| && |t.kids| == |t.seps| + 1 && t.seps != []
    && (forall i :: 0 <= i < |t.kids| ==> t.kids[i].Branch?)
    && if at > 0 && |t.kids[at - 1].seps| > 4 then
         u.seps == t.seps[at - 1 := t.kids[at - 1].seps[|t.kids[at - 1].seps| - 1]]
       else if at < |t.seps| && |t.kids[at + 1].seps| > 4 then u.seps == t.seps[at := t.kids[at + 1].seps[0]]
       else if at < |t.seps| then u.seps == t.seps[..at] + t.seps[at + 1..]
       else u.seps == t.seps[..at - 1]
  }

  lemma ChosenLeft(t: Tree, h: nat, at: nat, u: Tree)
    requires Short(t, h, at) && at > 0 && |t.kids[at - 1].seps| > MIDDLE && u.Branch?
    requires u.seps == t.seps[at - 1 := t.kids[at - 1].seps[|t.kids[at - 1].seps| - 1]]
    ensures Chosen(t, at, u)
  {
    KidsBranch(t, h, at);
  }

  lemma ChosenRight(t: Tree, h: nat, at: nat, u: Tree)
    requires Short(t, h, at) && at < |t.seps| && |t.kids[at + 1].seps| > MIDDLE && u.Branch?
    requires at > 0 ==> |t.kids[at - 1].seps| <= MIDDLE
    requires u.seps == t.seps[at := t.kids[at + 1].seps[0]]
    ensures Chosen(t, at, u)
  {
    KidsBranch(t, h, at);
  }

  lemma ChosenMerge(t: Tree, h: nat, at: nat, a: nat, u: Tree)
    requires Short(t, h, at) && u.Branch? && a == (if at < |t.seps| then at else at - 1)
    requires at > 0 ==> |t.kids[at - 1].seps| <= MIDDLE
    requires at < |t.seps| ==> |t.kids[at + 1].seps| <= MIDDLE
    requires u.seps == t.seps[..a] + t.seps[a + 1..]
    ensures Chosen(t, at, u)
  {
    KidsBranch(t, h, at);
  }

  lemma KidsBranch(t: Tree, h: nat, at: nat)
    requires Short(t, h, at)
    ensures forall i :: 0 <= i < |t.kids| ==> t.kids[i].Branch?
  {
  }

  ghost function PairAt(t: Tree, a: nat): Pair
    requires t.Branch? && a < |t.seps| && |t.kids| == |t.seps| + 1
  {
    Pair(t.kids[a], t.seps[a], t.kids[a + 1])
  }

  lemma PairAtOwn(t: Tree, a: nat)
    requires t.Branch? && a < |t.seps| && |t.kids| == |t.seps| + 1
    ensures OwnSeps(t.seps[a..a + 1]) + OwnKids(t.kids[a..a + 2]) == PairOwn(PairAt(t, a))
    ensures t.seps[a..a + 1] == [t.seps[a]] && t.kids[a..a + 2] == [t.kids[a], t.kids[a + 1]]
  {
    hide OwnSeps, OwnKids, Own;
    assert t.seps[a..a + 1] == [t.seps[a]] && t.kids[a..a + 2] == [t.kids[a], t.kids[a + 1]];
    PairOwnIs(PairAt(t, a));
  }

  lemma PairAtStored(t: Tree, a: nat, c: Cells)
    requires Held(t, c) && a < |t.seps| && |t.kids| == |t.seps| + 1
    requires t.kids[a].Branch? && t.kids[a + 1].Branch?
    ensures PairStored(PairAt(t, a), c)
  {
    hide OwnSeps, OwnKids, Own;
    PairAtOwn(t, a);
    SelfOwn(t, a, a + 1);
    NoDupPart(PairOwn(PairAt(t, a)), Own(t));
    hide Stored;
  }

  /** Puts a rewritten pair back into its parent. */
  lemma PairReplaced(t: Tree, a: nat, w: Pair, c: Cells, d: Cells)
    requires Held(t, c) && a < |t.seps| && |t.kids| == |t.seps| + 1
    requires PairStored(w, d) && Framed(c, d, PairOwn(PairAt(t, a))) && From(c, PairOwn(PairAt(t, a)), PairOwn(w))
    requires Neat(c, d, PairOwn(PairAt(t, a)), PairOwn(w))
    ensures Held(With(t, a, a + 1, [w.m], [w.l, w.r]), d)
    ensures Moves(c, d, t, One(With(t, a, a + 1, [w.m], [w.l, w.r])))
  {
    hide OwnSeps, OwnKids, Own, SepsStored, NoDup, Framed, From, Neat, With;
    PairAtOwn(t, a);
    PairOwnIs(w);
    assert KidsStored(d, [w.l, w.r]);
    hide Stored;
    Restretch(t, a, a + 1, [w.m], [w.l, w.r], c, d);
  }

  lemma PairReplacedOrder(t: Tree, a: nat, w: Pair)
    requires t.Branch? && a < |t.seps| && |t.kids| == |t.seps| + 1
    requires PairOrder(w) == PairOrder(PairAt(t, a))
    ensures InOrder(With(t, a, a + 1, [w.m], [w.l, w.r])) == InOrder(t)
  {
    hide InOrder, Flat;
    WithOrder(t, a, a + 1, [w.m], [w.l, w.r]);
    PairAtOwn(t, a);
    PairOrderIs(w);
    PairOrderIs(PairAt(t, a));
  }

  lemma PairReplacedShape(t: Tree, h: nat, a: nat, w: Pair)
    requires h > 1 && t.Branch? && a < |t.seps| && |t.kids| == |t.seps| + 1
    requires forall i :: 0 <= i < |t.kids| && i != a && i != a + 1 ==> Shape(t.kids[i], h - 1, MIDDLE)
    requires Shape(w.l, h - 1, MIDDLE) && Shape(w.r, h - 1, MIDDLE)
    ensures Repaired(t, With(t, a, a + 1, [w.m], [w.l, w.r]), h)
  {
    hide Shape;
  }

  lemma PairReplacedRecords(t: Tree, a: nat, w: Pair)
    requires t.Branch? && a < |t.seps| && |t.kids| == |t.seps| + 1
    ensures var u := With(t, a, a + 1, [w.m], [w.l, w.r]);
            && Recs(u.seps) == Recs(t.seps)[a := Rec(w.m)]
            && Ptrs(u.kids) == Ptrs(t.kids)[a := Ptr(w.l)][a + 1 := Ptr(w.r)]
  {
    WithRecords(t, a, a + 1, [w.m], [w.l, w.r]);
    assert Recs([w.m]) == [Rec(w.m)] && Ptrs([w.l, w.r]) == [Ptr(w.l), Ptr(w.r)];
  }

  lemma PairAtReady(t: Tree, a: nat, c: Cells)
    requires Held(t, c) && a < |t.seps| && |t.kids| == |t.seps| + 1
    requires t.kids[a].Branch? && t.kids[a + 1].Branch?
    ensures Ptrs(t.kids)[a] == Some(t.kids[a].addr) && Ptrs(t.kids)[a + 1] == Some(t.kids[a + 1].addr)
    ensures IsBranchAt(c, t.kids[a]) && IsBranchAt(c, t.kids[a + 1])
    ensures multiset{t.kids[a].addr, t.kids[a + 1].addr} <= PairOwn(PairAt(t, a))
  {
    hide Own, PairOwn, SepsStored;
    PairAtStored(t, a, c);
    PairAddrs(PairAt(t, a));
  }

  method FinishPair(self: Node, a: nat, left: Node, right: Node, h: nat, store: Store, ghost t: Tree, ghost q: Pair)
    returns (ghost u: Tree)
    requires store.Valid() && h > 1 && Held(t, store.cells) && a < |t.seps| <= ORDER && |t.kids| == |t.seps| + 1
    requires forall i :: 0 <= i < |t.kids| && i != a && i != a + 1 ==> Shape(t.kids[i], h - 1, MIDDLE)
    requires t.kids[a].Branch? && t.kids[a + 1].Branch?
    requires self.changed && self.Is(Recs(t.seps)[a := Rec(q.m)], Ptrs(t.kids)) && Apart(self, left)
    requires Apart(self, right)
    requires PairHeld(q, store.cells) && PairOwn(q) == PairOwn(PairAt(t, a)) && PairOrder(q) == PairOrder(PairAt(t, a))
    requires q.l.addr == t.kids[a].addr && q.r.addr == t.kids[a + 1].addr
    requires Shape(q.l, h - 1, MIDDLE) && Shape(q.r, h - 1, MIDDLE)
    requires Live(left, q.l, h - 1, store.cells) && Live(right, q.r, h - 1, store.cells)
    modifies store, self`changed, self.children
    ensures store.Valid() && Live(self, u, h, store.cells) && self.changed
    ensures Moves(old(store.cells), store.cells, t, One(u)) && Repaired(t, u, h) && InOrder(u) == InOrder(t)
    ensures u.Branch? && u.seps == t.seps[a := q.m]
  {
    hide Own, SepsStored, KidsStored, Stored, NoDup, From, Neat, Framed, Node.SepsAre, Node.KidsAre, Node.Bare, PairOwn;
    hide PairStored, PairHeld, Recs, Ptrs, InOrder, With, Shape, AllBalanced;
    PairAtReady(t, a, store.cells);
    ghost var c := store.cells;
    ghost var w := WritePair(self, a, left, right, h - 1, store, Recs(t.seps)[a := Rec(q.m)], Ptrs(t.kids), q);
    ghost var d := store.cells;
    u := With(t, a, a + 1, [w.m], [w.l, w.r]);
    FramedPart(c, d, multiset{q.l.addr, q.r.addr}, PairOwn(q));
    PairReplaced(t, a, w, c, d);
    SameButAddr(q.l, w.l, h - 1, MIDDLE);
    SameButAddr(q.r, w.r, h - 1, MIDDLE);
    PairReplacedOrder(t, a, w);
    PairReplacedShape(t, h, a, w);
    PairReplacedRecords(t, a, w);
    WithSeps(t, a, a + 1, [w.m], [w.l, w.r]);
    assert t.seps[..a] + [q.m] + t.seps[a + 1..] == t.seps[a := q.m];
  }

  lemma WithSeps(t: Tree, i: nat, j: nat, sm: seq<Sep>, km: seq<Tree>)
    requires t.Branch? && i <= j <= |t.seps| && |t.kids| == |t.seps| + 1
    ensures With(t, i, j, sm, km).seps == t.seps[..i] + sm + t.seps[j..]
  {
  }

  lemma PairAddrs(p: Pair)
    requires p.l.Branch? && p.r.Branch? && NoDup(PairOwn(p))
    ensures multiset{p.l.addr, p.r.addr} <= PairOwn(p)
  {
    OwnAddr(p.l);
    OwnAddr(p.r);
    hide Own;
  }

  lemma FramedPart(c: Cells, d: Cells, m: multiset<Address>, n: multiset<Address>)
    requires Framed(c, d, m) && m <= n
    ensures Framed(c, d, n)
  {
  }

  lemma InnerPtrs(t: Tree, h: nat, lo: nat)
    requires Shape(t, h, lo) && h > 1
    ensures forall i :: 0 <= i < |t.kids| ==> Ptrs(t.kids)[i].Some?
  {
    assert forall i :: 0 <= i < |t.kids| ==> Shape(t.kids[i], h - 1, MIDDLE);
  }

  lemma BorrowedLeftRecords(p: Pair)
    requires IsNode(p.l) && IsNode(p.r) && |p.l.seps| > 0
    ensures var q, n := BorrowedLeft(p), |p.l.seps|;
            && Recs(q.l.seps) == Recs(p.l.seps)[..n - 1] && Ptrs(q.l.kids) == Ptrs(p.l.kids)[..n]
            && Rec(q.m) == Recs(p.l.seps)[n - 1]
            && Recs(q.r.seps) == [Rec(p.m)] + Recs(p.r.seps) && Ptrs(q.r.kids) == [Ptrs(p.l.kids)[n]] + Ptrs(p.r.kids)
  {
  }

  lemma BorrowedLeftShape(p: Pair, h: nat)
    requires h > 0 && Shape(p.l, h, MIDDLE + 1) && Shape(p.r, h, MIDDLE - 1) && |p.r.seps| < ORDER
    ensures Shape(BorrowedLeft(p).l, h, MIDDLE) && Shape(BorrowedLeft(p).r, h, MIDDLE)
  {
    var q := BorrowedLeft(p);
    forall i | 0 <= i < |q.r.kids| ensures Shape(q.r.kids[i], h - 1, MIDDLE) {
    }
  }

  ghost predicate OthersBalanced(t: Tree, h: nat, a: nat) {
    && h > 1 && t.Branch? && a < |t.seps| <= ORDER && |t.kids| == |t.seps| + 1
    && forall i :: 0 <= i < |t.kids| && i != a && i != a + 1 ==> Shape(t.kids[i], h - 1, MIDDLE)
  }

  lemma BorrowedLeftReady(t: Tree, h: nat, a: nat, c: Cells)
    requires OthersBalanced(t, h, a) && Held(t, c)
    requires Shape(t.kids[a], h - 1, MIDDLE + 1) && Shape(t.kids[a + 1], h - 1, MIDDLE - 1)
    requires |t.kids[a + 1].seps| < ORDER
    ensures var p := PairAt(t, a);
            && IsNode(p.l) && IsNode(p.r) && |t.kids[a].seps| > 0
            && (h > 2 ==> forall i :: 0 <= i < |p.l.kids| ==> Ptrs(p.l.kids)[i].Some?)
            && (h > 2 ==> forall i :: 0 <= i < |p.r.kids| ==> Ptrs(p.r.kids)[i].Some?)
    ensures var p := PairAt(t, a); var q := BorrowedLeft(p);
            && PairHeld(q, c) && PairOwn(q) == PairOwn(p) && PairOrder(q) == PairOrder(p)
            && Shape(q.l, h - 1, MIDDLE) && Shape(q.r, h - 1, MIDDLE)
            && q.l.Branch? && q.r.Branch? && q.l.addr == p.l.addr && q.r.addr == p.r.addr
  {
    var p := PairAt(t, a);
    if h > 2 {
      InnerPtrs(p.l, h - 1, MIDDLE + 1);
      InnerPtrs(p.r, h - 1, MIDDLE - 1);
    }
    PairAtStored(t, a, c);
    hide Own, SepsStored, KidsStored, Stored, PairOwn, PairStored, InOrder, PairOrder, NoDup;
    BorrowedLeftHeld(p, c);
    BorrowedLeftOwn(p);
    BorrowedLeftOrder(p);
    BorrowedLeftShape(p, h - 1);
  }

  method BorrowFromLeft(self: Node, left: Node, right: Node, a: nat, h: nat, store: Store, ghost t: Tree)
    returns (ghost u: Tree)
    requires store.Valid() && OthersBalanced(t, h, a) && Live(self, t, h, store.cells)
    requires Live(left, t.kids[a], h - 1, store.cells) && Live(right, t.kids[a + 1], h - 1, store.cells)
    requires Shape(t.kids[a], h - 1, MIDDLE + 1) && Shape(t.kids[a + 1], h - 1, MIDDLE - 1)
    requires |t.kids[a + 1].seps| < ORDER
    requires Apart(self, left) && Apart(self, right) && Apart(left, right)
    modifies store, self`changed, self.separators, self.children
    modifies left`changed, left.separators, left.children, right`changed, right.separators, right.children
    ensures store.Valid() && Live(self, u, h, store.cells) && self.changed
    ensures Moves(old(store.cells), store.cells, t, One(u)) && Repaired(t, u, h) && InOrder(u) == InOrder(t)
    ensures u.Branch? && u.seps == t.seps[a := t.kids[a].seps[|t.kids[a].seps| - 1]]
  {
    ghost var p := PairAt(t, a);
    BorrowedLeftReady(t, h, a, store.cells);
    BorrowedLeftRecords(p);
    ghost var q := BorrowedLeft(p);
    hide *;
    BorrowLeft(self, left, right, a + 1, h > 2, Recs(t.seps), Ptrs(t.kids), Recs(p.l.seps), Ptrs(p.l.kids),
               Recs(p.r.seps), Ptrs(p.r.kids));
    u := FinishPair(self, a, left, right, h, store, t, q);
  }

  lemma BorrowedRightRecords(p: Pair)
    requires IsNode(p.l) && IsNode(p.r) && |p.r.seps| > 0
    ensures var q := BorrowedRight(p);
            && Recs(q.l.seps) == Recs(p.l.seps) + [Rec(p.m)] && Ptrs(q.l.kids) == Ptrs(p.l.kids) + [Ptrs(p.r.kids)[0]]
            && Rec(q.m) == Recs(p.r.seps)[0]
            && Recs(q.r.seps) == Recs(p.r.seps)[1..] && Ptrs(q.r.kids) == Ptrs(p.r.kids)[1..]
  {
  }

  lemma BorrowedRightShape(p: Pair, h: nat)
    requires h > 0 && Shape(p.l, h, MIDDLE - 1) && Shape(p.r, h, MIDDLE + 1) && |p.l.seps| < ORDER
    ensures Shape(BorrowedRight(p).l, h, MIDDLE) && Shape(BorrowedRight(p).r, h, MIDDLE)
  {
    var q := BorrowedRight(p);
    forall i | 0 <= i < |q.l.kids| ensures Shape(q.l.kids[i], h - 1, MIDDLE) {
    }
  }

  lemma BorrowedRightReady(t: Tree, h: nat, a: nat, c: Cells)
    requires OthersBalanced(t, h, a) && Held(t, c)
    requires Shape(t.kids[a], h - 1, MIDDLE - 1) && Shape(t.kids[a + 1], h - 1, MIDDLE + 1) && |t.kids[a].seps| < ORDER
    ensures var p := PairAt(t, a);
            && IsNode(p.l) && IsNode(p.r) && |t.kids[a + 1].seps| > 0
            && (h > 2 ==> forall i :: 0 <= i < |p.l.kids| ==> Ptrs(p.l.kids)[i].Some?)
            && (h > 2 ==> forall i :: 0 <= i < |p.r.kids| ==> Ptrs(p.r.kids)[i].Some?)
    ensures var p := PairAt(t, a); var q := BorrowedRight(p);
            && PairHeld(q, c) && PairOwn(q) == PairOwn(p) && PairOrder(q) == PairOrder(p)
            && Shape(q.l, h - 1, MIDDLE) && Shape(q.r, h - 1, MIDDLE)
            && q.l.Branch? && q.r.Branch? && q.l.addr == p.l.addr && q.r.addr == p.r.addr
  {
    var p := PairAt(t, a);
    if h > 2 {
      InnerPtrs(p.l, h - 1, MIDDLE - 1);
      InnerPtrs(p.r, h - 1, MIDDLE + 1);
    }
    PairAtStored(t, a, c);
    hide Own, SepsStored, KidsStored, Stored, PairOwn, PairStored, InOrder, PairOrder, NoDup;
    BorrowedRightHeld(p, c);
    BorrowedRightOwn(p);
    BorrowedRightOrder(p);
    BorrowedRightShape(p, h - 1);
  }

  method BorrowFromRight(self: Node, left: Node, right: Node, a: nat, h: nat, store: Store, ghost t: Tree)
    returns (ghost u: Tree)
    requires store.Valid() && OthersBalanced(t, h, a) && Live(self, t, h, store.cells)
    requires Live(left, t.kids[a], h - 1, store.cells) && Live(right, t.kids[a + 1], h - 1, store.cells)
    requires Shape(t.kids[a], h - 1, MIDDLE - 1) && Shape(t.kids[a + 1], h - 1, MIDDLE + 1) && |t.kids[a].seps| < ORDER
    requires Apart(self, left) && Apart(self, right) && Apart(left, right)
    modifies store, self`changed, self.separators, self.children
    modifies left`changed, left.separators, left.children, right`changed, right.separators, right.children
    ensures store.Valid() && Live(self, u, h, store.cells) && self.changed
    ensures Moves(old(store.cells), store.cells, t, One(u)) && Repaired(t, u, h) && InOrder(u) == InOrder(t)
    ensures u.Branch? && u.seps == t.seps[a := t.kids[a + 1].seps[0]]
  {
    ghost var p := PairAt(t, a);
    BorrowedRightReady(t, h, a, store.cells);
    BorrowedRightRecords(p);
    ghost var q := BorrowedRight(p);
    hide *;
    BorrowRight(self, left, right, a, h > 2, Recs(t.seps), Ptrs(t.kids), Recs(p.l.seps), Ptrs(p.l.kids), Recs(p.r.seps),
                Ptrs(p.r.kids));
    u := FinishPair(self, a, left, right, h, store, t, q);
  }

  // ----- merging

  lemma MergedRecords(p: Pair)
    requires IsNode(p.l) && IsNode(p.r)
    ensures Recs(Merged(p).seps) == Recs(p.l.seps) + [Rec(p.m)] + Recs(p.r.seps)
    ensures Ptrs(Merged(p).kids) == Ptrs(p.l.kids) + Ptrs(p.r.kids)
  {
  }

  lemma MergedShape(p: Pair, h: nat)
    requires h > 0 && Shape(p.l, h, MIDDLE - 1) && Shape(p.r, h, MIDDLE - 1) && |p.l.seps| + 1 + |p.r.seps| <= ORDER
    ensures Shape(Merged(p), h, MIDDLE)
  {
    var z := Merged(p);
    forall i | 0 <= i < |z.kids| ensures Shape(z.kids[i], h - 1, MIDDLE) {
    }
  }

  /** The right sibling's entry is freed, the merged node written, and an empty orphan entry left behind. */
  lemma MergeStored(p: Pair, z: Tree, c0: Cells, c1: Cells, c2: Cells, c3: Cells, orphan: Address, blob: Blob)
    requires IsNode(p.l) && IsNode(p.r) && PairStored(p, c0) && z.Branch?
    requires c1 == c0 - {p.r.addr} && Framed(c1, c2, multiset{p.l.addr}) && From(c1, Own(Merged(p)), Own(z))
    requires Neat(c1, c2, Own(Merged(p)), Own(z))
    requires NoDup(Own(z)) && Stored(c2, z) && orphan !in c2 && c3 == c2[orphan := blob] && Orphan(blob)
    ensures Stored(c3, z) && Framed(c0, c3, PairOwn(p)) && From(c0, PairOwn(p), Own(z))
    ensures Neat(c0, c3, PairOwn(p), Own(z))
  {
    hide Own, PairOwn, SepsStored, KidsStored, Stored, Framed, From, Neat, NoDup, Merged;
    PairAddrs(p);
    MergedOwn(p);
    MergeFrame(c0, c1, c2, c3, p.l.addr, p.r.addr, PairOwn(p), Own(Merged(p)), Own(z), orphan, blob);
    StoredInCells(c2, z);
    AgreeMore(c2, orphan, blob, Own(z));
    StoredFrame(c2, c3, z);
  }

  lemma AgreeMore(c: Cells, a: Address, blob: Blob, m: multiset<Address>)
    requires a !in c
    ensures Agree(c, c[a := blob], m)
  {
  }

  lemma MergeFrame(c0: Cells, c1: Cells, c2: Cells, c3: Cells, la: Address, ra: Address,
                   o: multiset<Address>, m: multiset<Address>, n: multiset<Address>, orphan: Address, blob: Blob)
    requires c1 == c0 - {ra} && Framed(c1, c2, multiset{la}) && From(c1, m, n) && Neat(c1, c2, m, n)
    requires orphan !in c2 && c3 == c2[orphan := blob] && multiset{la, ra} <= o && m + multiset{ra} == o && Orphan(blob)
    ensures Framed(c0, c3, o) && From(c0, o, n) && Neat(c0, c3, o, n)
  {
    assert la in multiset{la, ra} && ra in multiset{la, ra};
    assert forall a :: a in m ==> a in m + multiset{ra};
  }

  lemma MergeHeld(p: Pair, c: Cells)
    requires IsNode(p.l) && IsNode(p.r) && PairStored(p, c)
    ensures Held(Merged(p), c - {p.r.addr}) && Merged(p).addr == p.l.addr != p.r.addr
    ensures (c - {p.r.addr})[p.l.addr] == c[p.l.addr]
  {
    hide Own, OwnSeps, OwnKids, SepsStored, KidsStored, Stored;
    MergedHeld(p, c);
    OwnAddr(Merged(p));
    HeldFrame(Merged(p), c, c - {p.r.addr});
  }

  lemma MergeReplaced(t: Tree, a: nat, z: Tree, c: Cells, d: Cells)
    requires Held(t, c) && a < |t.seps| && |t.kids| == |t.seps| + 1
    requires Stored(d, z) && NoDup(Own(z)) && Framed(c, d, PairOwn(PairAt(t, a)))
    requires From(c, PairOwn(PairAt(t, a)), Own(z)) && Neat(c, d, PairOwn(PairAt(t, a)), Own(z))
    ensures Held(With(t, a, a + 1, [], [z]), d)
    ensures Moves(c, d, t, One(With(t, a, a + 1, [], [z])))
  {
    hide Own, SepsStored, NoDup, Framed, From, Neat, With;
    PairAtOwn(t, a);
    OwnOne(Sep([], 0, []), z);
    assert OwnSeps([]) + OwnKids([z]) == Own(z);
    assert KidsStored(d, [z]);
    assert SepsStored(d, []) by {
      SepsStoredEmpty(d);
    }
    hide Stored;
    Restretch(t, a, a + 1, [], [z], c, d);
  }

  lemma SepsStoredEmpty(d: Cells)
    ensures SepsStored(d, [])
  {
  }

  lemma MergeReplacedOrder(t: Tree, a: nat, z: Tree)
    requires t.Branch? && a < |t.seps| && |t.kids| == |t.seps| + 1 && InOrder(z) == PairOrder(PairAt(t, a))
    ensures InOrder(With(t, a, a + 1, [], [z])) == InOrder(t)
  {
    hide InOrder;
    WithOrder(t, a, a + 1, [], [z]);
    PairAtOwn(t, a);
    PairOrderIs(PairAt(t, a));
    assert Flat([], [z]) == InOrder(z);
  }

  lemma MergeReplacedShape(t: Tree, h: nat, a: nat, z: Tree)
    requires OthersBalanced(t, h, a) && Shape(z, h - 1, MIDDLE)
    ensures Repaired(t, With(t, a, a + 1, [], [z]), h)
  {
    hide Shape;
    var u := With(t, a, a + 1, [], [z]);
    forall i | 0 <= i < |u.kids| ensures Shape(u.kids[i], h - 1, MIDDLE) {
      if i > a {
        assert u.kids[i] == t.kids[i + 1];
      }
    }
  }

  lemma MergeReplacedRecords(t: Tree, a: nat, z: Tree)
    requires t.Branch? && a < |t.seps| && |t.kids| == |t.seps| + 1
    ensures var u := With(t, a, a + 1, [], [z]);
            && Recs(u.seps) == Recs(t.seps)[..a] + Recs(t.seps)[a + 1..]
            && Ptrs(u.kids) == Ptrs(t.kids)[..a] + [Ptr(z)] + Ptrs(t.kids)[a + 2..]
  {
    WithRecords(t, a, a + 1, [], [z]);
    assert Recs([]) == [] && Ptrs([z]) == [Ptr(z)];
  }

  method MergeSiblings(self: Node, left: Node, right: Node, a: nat, h: nat, store: Store, ghost t: Tree)
    returns (ghost u: Tree)
    requires store.Valid() && OthersBalanced(t, h, a) && Live(self, t, h, store.cells)
    requires Live(left, t.kids[a], h - 1, store.cells) && Live(right, t.kids[a + 1], h - 1, store.cells)
    requires Shape(t.kids[a], h - 1, MIDDLE - 1) && Shape(t.kids[a + 1], h - 1, MIDDLE - 1)
    requires |t.kids[a].seps| + 1 + |t.kids[a + 1].seps| <= ORDER
    requires Apart(self, left) && Apart(self, right) && Apart(left, right)
    modifies store, self`changed, self.separators, self.children
    modifies left`changed, left.separators, left.children, right`changed, right.separators, right.children
    ensures store.Valid() && Live(self, u, h, store.cells) && self.changed
    ensures Moves(old(store.cells), store.cells, t, One(u)) && Repaired(t, u, h) && InOrder(u) == InOrder(t)
    ensures u.Branch? && u.seps == t.seps[..a] + t.seps[a + 1..]
  {
    hide Own, SepsStored, KidsStored, Stored, Node.Bare, PairOwn, PairOrder, PairStored, Recs, Ptrs, InOrder, Shape;
    hide NoDup, From, Neat, Framed, Merged, Without, Moves;
    ghost var p := PairAt(t, a);
    ghost var c := store.cells;
    PairAtReady(t, a, c);
    MergeReady(t, h, a, c);
    var separator := self.RemoveSeparator(a);
    MergeInto(left, right, separator.value, h > 2, Recs(p.l.seps), Ptrs(p.l.kids), Recs(p.r.seps), Ptrs(p.r.kids));
    ghost var z := MergeWrite(self, left, right, a, h, store, Ptrs(t.kids), p);
    self.RemoveFrom(a, true, false, Recs(t.seps), Ptrs(t.kids)[a := Ptr(z)]);
    u := MergeDone(t, h, a, z, c, store.cells);
  }

  lemma MergeDone(t: Tree, h: nat, a: nat, z: Tree, c: Cells, d: Cells) returns (u: Tree)
    requires OthersBalanced(t, h, a) && Held(t, c) && IsNode(t.kids[a]) && IsNode(t.kids[a + 1])
    requires z.Branch? && Merged(PairAt(t, a)).Branch? && z == Merged(PairAt(t, a)).(addr := z.addr)
    requires Shape(Merged(PairAt(t, a)), h - 1, MIDDLE) && InOrder(Merged(PairAt(t, a))) == PairOrder(PairAt(t, a))
    requires Stored(d, z) && NoDup(Own(z)) && Framed(c, d, PairOwn(PairAt(t, a)))
    requires From(c, PairOwn(PairAt(t, a)), Own(z)) && Neat(c, d, PairOwn(PairAt(t, a)), Own(z))
    ensures Held(u, d) && Moves(c, d, t, One(u)) && Repaired(t, u, h) && InOrder(u) == InOrder(t)
    ensures Recs(u.seps) == Without(Recs(t.seps), a) && Ptrs(u.kids) == Without(Ptrs(t.kids)[a := Ptr(z)], a + 1)
    ensures u.Branch? && u.seps == t.seps[..a] + t.seps[a + 1..]
  {
    hide Own, SepsStored, KidsStored, Stored, PairOwn, PairOrder, Recs, Ptrs, InOrder, With, Shape, NoDup, From, Neat;
    hide Framed;
    u := With(t, a, a + 1, [], [z]);
    MergeReplaced(t, a, z, c, d);
    SameButAddr(Merged(PairAt(t, a)), z, h - 1, MIDDLE);
    MergeReplacedOrder(t, a, z);
    MergeReplacedShape(t, h, a, z);
    MergeReplacedRecords(t, a, z);
    WithSeps(t, a, a + 1, [], [z]);
    assert t.seps[..a] + [] == t.seps[..a];
  }

  /** Frees the right sibling's entry and writes the merged node. The emptied right sibling is written
      too, to an entry nothing will point to. */
  method MergeWrite(self: Node, left: Node, right: Node, a: nat, h: nat, store: Store,
                    ghost ptrs: seq<Option<Address>>, ghost p: Pair) returns (ghost z: Tree)
    requires store.Valid() && self.KidsAre(ptrs) && a + 1 < |ptrs| && Apart(self, left) && Apart(self, right) && h > 1
    requires IsNode(p.l) && IsNode(p.r) && PairStored(p, store.cells)
    requires IsBranchAt(store.cells, p.l) && IsBranchAt(store.cells, p.r)
    requires ptrs[a] == Some(p.l.addr) && ptrs[a + 1] == Some(p.r.addr)
    requires left.changed && Mirrors(left, Merged(p), h - 1) && right.Is([], [None])
    requires Held(Merged(p), store.cells - {p.r.addr}) && Merged(p).addr == p.l.addr != p.r.addr
    modifies store, self`changed, self.children
    ensures store.Valid() && self.changed
    ensures forall i :: 0 <= i < |ptrs| && i != a && i != a + 1 ==> self.children[i] == ptrs[i]
    ensures z.Branch? && z == Merged(p).(addr := z.addr) && self.children[a] == Ptr(z)
    ensures Stored(store.cells, z) && NoDup(Own(z))
    ensures Framed(old(store.cells), store.cells, PairOwn(p)) && From(old(store.cells), PairOwn(p), Own(z))
    ensures Neat(old(store.cells), store.cells, PairOwn(p), Own(z))
  {
    hide Own, SepsStored, KidsStored, Stored, Node.Bare, Node.SepsAre, PairOwn, PairStored, Recs, Ptrs, NoDup, From;
    hide Neat;
    hide Framed, Merged;
    ghost var c0 := store.cells;
    var removed := self.RemoveChild(a + 1);
    store.Remove(removed.value);
    ghost var c1 := store.cells;
    z := WriteChild(self, a, left, h - 1, store, ptrs[a + 1 := None], Merged(p));
    ghost var c2 := store.cells;
    var record := right.ToRecord([], [None]);
    var orphan := store.WriteNew(record);
    self.changed := true;
    self.children[a + 1] := Some(orphan);
    MergeStored(p, z, c0, c1, c2, store.cells, orphan, record);
  }

  lemma MergeReady(t: Tree, h: nat, a: nat, c: Cells)
    requires OthersBalanced(t, h, a) && Held(t, c)
    requires Shape(t.kids[a], h - 1, MIDDLE - 1) && Shape(t.kids[a + 1], h - 1, MIDDLE - 1)
    requires |t.kids[a].seps| + 1 + |t.kids[a + 1].seps| <= ORDER
    ensures var p := PairAt(t, a);
            && IsNode(p.l) && IsNode(p.r) && PairStored(p, c) && 0 < |p.r.seps|
            && Recs(Merged(p).seps) == Recs(p.l.seps) + [Rec(p.m)] + Recs(p.r.seps)
            && Ptrs(Merged(p).kids) == Ptrs(p.l.kids) + Ptrs(p.r.kids)
            && Shape(Merged(p), h - 1, MIDDLE) && InOrder(Merged(p)) == PairOrder(p)
            && Held(Merged(p), c - {p.r.addr}) && Merged(p).addr == p.l.addr != p.r.addr
            && (c - {p.r.addr})[p.l.addr] == c[p.l.addr]
    ensures forall i :: 0 <= i < |t.kids| ==> Ptrs(t.kids)[i].Some?
    ensures Recs(t.seps)[a] == Rec(t.seps[a])
  {
    hide Own, SepsStored, KidsStored, Stored, PairStored, InOrder, PairOrder, PairOwn, NoDup;
    var p := PairAt(t, a);
    PairAtStored(t, a, c);
    MergedRecords(p);
    MergedShape(p, h - 1);
    MergedOrder(p);
    MergeHeld(p, c);
  }

  lemma ShortShapes(t: Tree, h: nat, at: nat, c: Cells)
    requires Short(t, h, at) && Held(t, c)
    ensures forall i :: 0 <= i < |t.kids| ==>
      Stored(c, t.kids[i]) && NoDup(Own(t.kids[i])) && Shape(t.kids[i], h - 1, MIDDLE - 1)
    ensures at > 0 ==> OthersBalanced(t, h, at - 1)
    ensures at + 1 < |t.kids| ==> OthersBalanced(t, h, at)
    ensures forall i :: 0 <= i < |t.kids| ==> t.kids[i].Branch?
  {
    forall i | 0 <= i < |t.kids| ensures NoDup(Own(t.kids[i])) && Shape(t.kids[i], h - 1, MIDDLE - 1) {
      KidNoDup(t, i);
      ShapeLower(t.kids[i], h - 1, if i == at then MIDDLE - 1 else MIDDLE, MIDDLE - 1);
    }
    hide Stored, Shape;
  }

  lemma ShapeLower(t: Tree, h: nat, hi: nat, lo: nat)
    requires Shape(t, h, hi) && lo <= hi
    ensures Shape(t, h, lo)
  {
  }

  lemma ShapeHigher(t: Tree, h: nat, lo: nat, hi: nat)
    requires Shape(t, h, lo) && h > 0 && hi <= |t.seps|
    ensures Shape(t, h, hi)
  {
  }

  /** Repairs child `at`: by borrowing from the left or right sibling if one has a separator to spare,
      otherwise by merging with one. The entries and their order stay. */
  method Rebalance(self: Node, h: nat, at: nat, store: Store, ghost t: Tree) returns (ghost u: Tree)
    requires store.Valid() && Live(self, t, h, store.cells) && Short(t, h, at)
    modifies store, self`changed, self.separators, self.children
    ensures store.Valid() && Live(self, u, h, store.cells) && self.changed
    ensures Moves(old(store.cells), store.cells, t, One(u)) && Repaired(t, u, h) && InOrder(u) == InOrder(t)
    ensures Chosen(t, at, u)
  {
    hide Own, SepsStored, KidsStored, Stored, Node.Bare, Node.KidsAre, NoDup, InOrder, Moves, Repaired, Recs, Ptrs;
    hide Shape, AllBalanced, OthersBalanced, Chosen;
    ShortShapes(t, h, at, store.cells);
    var left: Node? := null;
    if at > 0 {
      left := FetchSibling(self, at - 1, h, store, t);
      if left.HasSeparator(MIDDLE) {
        ShapeHigher(t.kids[at - 1], h - 1, MIDDLE - 1, MIDDLE + 1);
        var right := FetchSibling(self, at, h, store, t);
        u := BorrowFromLeft(self, left, right, at - 1, h, store, t);
        ChosenLeft(t, h, at, u);
        return;
      }
    }
    u := RebalanceRight(self, left, h, at, store, t);
  }

  /** The left sibling, if there is one, has nothing to spare: borrow from the right one, or merge with either. */
  method RebalanceRight(self: Node, left: Node?, h: nat, at: nat, store: Store, ghost t: Tree) returns (ghost u: Tree)
    requires store.Valid() && Live(self, t, h, store.cells) && Short(t, h, at) && (left == null <==> at == 0)
    requires left != null ==> Apart(self, left) && Live(left, t.kids[at - 1], h - 1, store.cells) && !left.changed
    requires left != null ==> !left.HasSeparator(MIDDLE)
    modifies store, self`changed, self.separators, self.children
    modifies left, if left == null then {} else {left.separators, left.children}
    ensures store.Valid() && Live(self, u, h, store.cells) && self.changed
    ensures Moves(old(store.cells), store.cells, t, One(u)) && Repaired(t, u, h) && InOrder(u) == InOrder(t)
    ensures Chosen(t, at, u)
  {
    hide Own, SepsStored, KidsStored, Stored, Node.Bare, Node.KidsAre, NoDup, InOrder, Moves, Repaired, Recs, Ptrs;
    hide Shape, AllBalanced, OthersBalanced, Chosen;
    ShortShapes(t, h, at, store.cells);
    var n := self.NumberSeparator(Recs(t.seps), Ptrs(t.kids));
    var numberChild := n + 1;
    if at + 1 < numberChild {
      var right := FetchSibling(self, at + 1, h, store, t);
      var mid := FetchSibling(self, at, h, store, t);
      if right.HasSeparator(MIDDLE) {
        ShapeHigher(t.kids[at + 1], h - 1, MIDDLE - 1, MIDDLE + 1);
        u := BorrowFromRight(self, mid, right, at, h, store, t);
        ChosenRight(t, h, at, u);
      } else {
        u := MergeSiblings(self, mid, right, at, h, store, t);
        ChosenMerge(t, h, at, at, u);
      }
    } else {
      var right := FetchSibling(self, at, h, store, t);
      u := MergeSiblings(self, left, right, at - 1, h, store, t);
      ChosenMerge(t, h, at, at - 1, u);
    }
  }

  method FetchSibling(self: Node, i: nat, h: nat, store: Store, ghost t: Tree) returns (child: Node)
    requires Mirrors(self, t, h) && h > 1 && i < |t.kids|
    requires Stored(store.cells, t.kids[i]) && NoDup(Own(t.kids[i])) && Shape(t.kids[i], h - 1, MIDDLE - 1)
    ensures fresh(child) && fresh(child.separators) && fresh(child.children)
    ensures Live(child, t.kids[i], h - 1, store.cells) && !child.changed
  {
    ShapeLower(t.kids[i], h - 1, MIDDLE - 1, 0);
    child := FetchChild(self, i, h, store, t);
  }
}
