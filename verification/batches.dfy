/** The recursive pass: a node handles the changes that fall into it and reports to its parent. */
module Batches {
  import opened Keys
  import opened Entries
  import opened Trees
  import opened Nodes
  import opened Stores
  import opened Pairs
  import opened Rebalancing
  import opened Kids
  import opened Changes
  import opened Gaps
  import opened Updates

  // ----- removing a separator of an inner node

  lemma InnerFacts(t: Tree, h: nat, lo: nat, i: nat, k: Tree, y: Tree, m: Sep)
    requires h > 1 && Shape(t, h, lo) && i < |t.seps|
    requires k.Branch? && y.Branch? && y == k.(addr := y.addr) && Shape(k, h - 1, MIDDLE - 1)
    requires InOrder(t.kids[i]) == InOrder(k) + [Item(m)]
    ensures var u := With(t, i, i + 1, [m], [y, t.kids[i + 1]]);
            && IsNode(u) && |u.seps| == |t.seps|
            && Recs(u.seps) == Recs(t.seps)[i := Rec(m)] && Ptrs(u.kids) == Ptrs(t.kids)[i := Ptr(y)]
            && InOrder(u) == Front(t, i) + InOrder(t.kids[i]) + InOrder(t.kids[i + 1]) + Back(t, i + 1)
            && (if |k.seps| == MIDDLE - 1 then Short(u, h, i) else Shape(u, h, lo))
  {
    hide InOrder, Flat, Front, Back, Recs, Ptrs;
    var w := Pair(y, m, t.kids[i + 1]);
    PairReplacedRecords(t, i, w);
    PtrsUpdate(t.kids, i + 1);
    assert Ptrs(t.kids)[i := Ptr(y)][i + 1 := Ptr(t.kids[i + 1])] == Ptrs(t.kids)[i := Ptr(y)];
    WithOrder(t, i, i + 1, [m], [w.l, w.r]);
    PairOrderIs(w);
    SameButAddr(k, y, 0, 0);
    InnerShape(t, h, lo, i, k, y, m);
  }

  lemma InnerShape(t: Tree, h: nat, lo: nat, i: nat, k: Tree, y: Tree, m: Sep)
    requires h > 1 && Shape(t, h, lo) && i < |t.seps|
    requires k.Branch? && y.Branch? && y == k.(addr := y.addr) && Shape(k, h - 1, MIDDLE - 1)
    ensures var u := With(t, i, i + 1, [m], [y, t.kids[i + 1]]);
            if |k.seps| == MIDDLE - 1 then Short(u, h, i) else Shape(u, h, lo)
  {
    var u := With(t, i, i + 1, [m], [y, t.kids[i + 1]]);
    assert forall j :: 0 <= j < |t.kids| && j != i ==> u.kids[j] == t.kids[j] && Shape(t.kids[j], h - 1, MIDDLE);
    assert u.kids[i] == y && Shape(y, h - 1, MIDDLE - 1);
    if |k.seps| != MIDDLE - 1 {
      ShapeHigher(y, h - 1, MIDDLE - 1, MIDDLE);
    }
  }

  /** Takes a separator out of an inner node: the greatest entry left of it moves up into its place. */
  method TakeInner(self: Node, i: nat, h: nat, store: Store, ghost t: Tree, ghost lo: nat)
    returns (need: bool, ghost u: Tree)
    requires store.Valid() && h > 1 && Live(self, t, h, store.cells) && Shape(t, h, lo) && i < |t.seps|
    modifies store, self`changed, self.separators, self.children
    ensures store.Valid() && Live(self, u, h, store.cells) && Moves(old(store.cells), store.cells, t, One(u))
    ensures u.addr == t.addr && |u.seps| == |t.seps|
    ensures InOrder(u) == Front(t, i) + InOrder(t.kids[i]) + InOrder(t.kids[i + 1]) + Back(t, i + 1)
    ensures if need then Short(u, h, i) else Shape(u, h, lo)
  {
    hide Own, KidsStored, Stored, NoDup, From, Neat, Framed, Recs, Ptrs, InOrder, Moves, Owned, Settled, Front, Back;
    hide With;
    hide Node.Bare, Node.KidsAre, AllBalanced;
    ghost var c := store.cells;
    RecAt(t.seps, i);
    KidWithoutValue(t, i, h, lo, c);
    var existing := self.separators[i].value.at;
    store.Remove(existing);
    ghost var b := store.cells;
    var removed := self.RemoveSeparator(i);
    var sep;
    ghost var k, y, m;
    need, sep, k, y, m := TakeFromKid(self, i, h, store, t);
    self.SetSeparator(i, Some(sep));
    InnerRemoved(t, i, y, m, c, b, store.cells);
    InnerFacts(t, h, lo, i, k, y, m);
    u := With(t, i, i + 1, [m], [y, t.kids[i + 1]]);
  }

  method TakeFromKid(self: Node, i: nat, h: nat, store: Store, ghost t: Tree)
    returns (need: bool, sep: SepRec, ghost k: Tree, ghost y: Tree, ghost m: Sep)
    requires store.Valid() && h > 1 && t.Branch? && i < |t.kids| && self.KidsAre(Ptrs(t.kids))
    requires Stored(store.cells, t.kids[i]) && NoDup(Own(t.kids[i])) && IsBranchAt(store.cells, t.kids[i])
    requires Shape(t.kids[i], h - 1, MIDDLE) && Shape(t.kids[i], h - 1, 0)
    modifies store, self`changed, self.children
    ensures store.Valid() && sep == Rec(m) && k.Branch? && y.Branch? && y == k.(addr := y.addr)
    ensures self.KidsAre(Ptrs(t.kids)[i := Ptr(y)]) && Settled(Two(y, m, Nil), store.cells)
    ensures Framed(old(store.cells), store.cells, Own(t.kids[i]))
    ensures From(old(store.cells), Own(t.kids[i]), Owned(Two(y, m, Nil)))
    ensures Neat(old(store.cells), store.cells, Own(t.kids[i]), Owned(Two(y, m, Nil)))
    ensures InOrder(t.kids[i]) == InOrder(k) + [Item(m)]
    ensures Shape(k, h - 1, MIDDLE - 1) && need == (|k.seps| == MIDDLE - 1)
  {
    hide Own, SepsStored, KidsStored, Stored, NoDup, From, Neat, Framed, Recs, Ptrs, InOrder, Owned, Settled, Node.Bare;
    hide Node.SepsAre, Node.KidsAre, Shape, AllBalanced;
    ghost var b := store.cells;
    KidPtr(t, i);
    var child := FetchChild(self, i, h, store, t);
    need, sep, k, m := RemoveLast(child, h - 1, store, t.kids[i]);
    ghost var d := store.cells;
    KidCell(t.kids[i], Two(k, m, Nil), b, d);
    y := WriteChild(self, i, child, h - 1, store, Ptrs(t.kids), k);
    KidWritten(t.kids[i], Two(k, m, Nil), y, b, d, store.cells);
  }

  method RemoveInner(self: Node, i: nat, h: nat, store: Store, ghost t: Tree, ghost lo: nat)
    returns (out: Outcome, ghost res: Result)
    requires store.Valid() && h > 1 && Live(self, t, h, store.cells) && Shape(t, h, lo) && 0 < lo <= MIDDLE
    requires i < |t.seps|
    modifies store, self`changed, self.separators, self.children
    ensures store.Valid() && Live(self, res.t, h, store.cells)
    ensures Sound(old(store.cells), store.cells, t, h, lo, out, res)
    ensures Order(res) == Front(t, i) + InOrder(t.kids[i]) + InOrder(t.kids[i + 1]) + Back(t, i + 1)
  {
    hide Own, SepsStored, KidsStored, Stored, NoDup, From, Neat, Framed, Recs, Ptrs, InOrder, Moves, Kept, Front, Back;
    hide Node.Bare, Node.KidsAre, AllBalanced;
    ghost var c := store.cells;
    var need;
    ghost var u;
    need, u := TakeInner(self, i, h, store, t, lo);
    if need {
      ghost var d := store.cells;
      ghost var v := u;
      u := Rebalance(self, h, i, store, v);
      MovesTrans(c, d, store.cells, t, v, One(u));
      out := ReportRepaired(self, h, store.cells, v, u, lo);
    } else {
      out := Report(self, h, store.cells, u, lo);
    }
    res := One(u);
    KeptOne(u, store.cells);
  }

  /** Reports a shortage of a node whose children are balanced. */
  method Report(self: Node, h: nat, ghost cells: Cells, ghost u: Tree, ghost lo: nat) returns (out: Outcome)
    requires h > 0 && Live(self, u, h, cells) && Shape(u, h, lo) && lo <= MIDDLE
    ensures !out.Grow? && Shaped(out, One(u), h, lo) && (out.Underflow? <==> |u.seps| < MIDDLE)
  {
    if self.HasSeparator(MIDDLE - 1) {
      out := Done;
    } else {
      out := Underflow;
      ShapeLower(u, h, lo, if lo == 0 then 0 else lo - 1);
    }
  }

  method ReportRepaired(self: Node, h: nat, ghost cells: Cells, ghost v: Tree, ghost u: Tree, ghost lo: nat)
    returns (out: Outcome)
    requires h > 1 && Live(self, u, h, cells) && Repaired(v, u, h) && 0 < lo <= MIDDLE && lo <= |v.seps| <= ORDER
    ensures !out.Grow? && Shaped(out, One(u), h, lo) && (out.Underflow? <==> |u.seps| < MIDDLE)
  {
    if self.HasSeparator(MIDDLE - 1) {
      out := Done;
      ShapeIs(u, h, lo);
    } else {
      out := Underflow;
      ShapeIs(u, h, lo - 1);
    }
  }

  // ----- the pass

  /** The node holds `t`, the tree holds `l` left and `r` right of it, and change `pos` falls into the node. */
  ghost predicate Ready(l: seq<Entry>, t: Tree, r: seq<Entry>, cs: seq<Change>, pos: nat) {
    pos < |cs| && SortedChanges(cs) && Sorted(l + InOrder(t) + r) && Gap(l, cs[pos].key, r)
  }

  /** Changes `pos` to `last` have been applied, all within the node. */
  ghost predicate Effect(l: seq<Entry>, t: Tree, r: seq<Entry>, cs: seq<Change>, pos: nat, last: nat, res: Result) {
    && pos <= last < |cs| && Gap(l, cs[last].key, r)
    && l + Order(res) + r == ApplyAll(l + InOrder(t) + r, cs[pos..last + 1])
  }

  /** The parent's separators and child pointers, of which child `p` is being changed. */
  ghost predicate Parent(parent: Node?, p: nat, ps: seq<SepRec>, pk: seq<Option<Address>>, r: seq<Entry>)
    reads if parent == null then {} else {parent.separators, parent.children}
  {
    parent != null ==> parent.Is(ps, pk) && p <= |ps| && (p < |ps| ==> r != [] && r[0].key == ps[p].key)
  }

  lemma DescendReady(l: seq<Entry>, t: Tree, r: seq<Entry>, cs: seq<Change>, pos: nat, i: nat)
    requires IsNode(t) && Ready(l, t, r, cs, pos) && i <= |t.seps|
    requires i > 0 ==> Less(t.seps[i - 1].key, cs[pos].key)
    requires i < |t.seps| ==> Less(cs[pos].key, t.seps[i].key)
    ensures Ready(l + Front(t, i), t.kids[i], Back(t, i) + r, cs, pos)
    ensures i < |t.seps| ==> Back(t, i) + r != [] && (Back(t, i) + r)[0].key == Recs(t.seps)[i].key
  {
    hide InOrder, Front, Back, Less;
    GapAtKid(l, t, r, i, cs[pos].key);
    FrontBackEnds(t, i);
  }

  lemma DescendEffect(l: seq<Entry>, t: Tree, r: seq<Entry>, cs: seq<Change>, pos: nat, last: nat, i: nat, res: Result)
    requires IsNode(t) && i <= |t.seps| && Effect(l + Front(t, i), t.kids[i], Back(t, i) + r, cs, pos, last, res)
    ensures Effect(l, t, r, cs, pos, last, One(Grafted(t, i, res)))
  {
    hide InOrder, Front, Back, Less, ApplyAll, Grafted;
    GraftOrder(t, i, res);
    OrderOne(Grafted(t, i, res));
    var a, b := l + Front(t, i), Back(t, i) + r;
    assert l + InOrder(t) + r == a + InOrder(t.kids[i]) + b;
    assert l + InOrder(Grafted(t, i, res)) + r == a + Order(res) + b;
    GapPart(l, Front(t, i), cs[last].key, Back(t, i), r);
  }

  lemma OrderOne(u: Tree)
    ensures Order(One(u)) == InOrder(u)
  {
  }

  lemma GapPart(l: seq<Entry>, f: seq<Entry>, k: Key, b: seq<Entry>, r: seq<Entry>)
    requires Gap(l + f, k, b + r)
    ensures Gap(l, k, r)
  {
    hide Less;
    forall i | 0 <= i < |l| ensures Less(l[i].key, k) {
      assert (l + f)[i] == l[i];
    }
    forall i | 0 <= i < |r| ensures Less(k, r[i].key) {
      assert (b + r)[|b| + i] == r[i];
    }
  }

  lemma SameEffect(l: seq<Entry>, t: Tree, r: seq<Entry>, cs: seq<Change>, pos: nat, last: nat, a: Result, b: Result)
    requires Effect(l, t, r, cs, pos, last, a) && Order(a) == Order(b)
    ensures Effect(l, t, r, cs, pos, last, b)
  {
  }

  /** Applies the changes that fall into child `i` and writes the child back. */
  method ChangeKid(self: Node, i: nat, h: nat, cs: seq<Change>, pos: nat, store: Store,
                   ghost t: Tree, ghost lo: nat, ghost l: seq<Entry>, ghost r: seq<Entry>)
    returns (last: nat, out: Outcome, ghost kres: Result, ghost res: Result)
    requires store.Valid() && h > 1 && Live(self, t, h, store.cells) && Shape(t, h, lo) && i <= |t.seps|
    requires Ready(l, t, r, cs, pos)
    requires i > 0 ==> Less(t.seps[i - 1].key, cs[pos].key)
    requires i < |t.seps| ==> Less(cs[pos].key, t.seps[i].key)
    modifies store, self`changed, self.children
    ensures store.Valid() && Matches(out, kres) && Shaped(out, kres, h - 1, MIDDLE)
    ensures kres.t.Branch? && res.t.Branch? && res == kres.(t := kres.t.(addr := res.t.addr))
    ensures self.Is(Recs(t.seps), Ptrs(t.kids)[i := Ptr(res.t)])
    ensures Held(Grafted(t, i, res), store.cells)
    ensures Moves(old(store.cells), store.cells, t, One(Grafted(t, i, res)))
    ensures store.cells[t.addr] == old(store.cells)[t.addr]
    ensures self.changed || (Ptrs(t.kids)[i := Ptr(res.t)] == Ptrs(t.kids) && !old(self.changed))
    ensures Effect(l, t, r, cs, pos, last, One(Grafted(t, i, res)))
    decreases h, 0
  {
    hide Own, SepsStored, KidsStored, Stored, NoDup, From, Neat, Framed, Recs, Ptrs, InOrder, Moves, Kept, Settled;
    hide Front;
    hide Back, Node.Bare, Node.SepsAre, Node.KidsAre, AllBalanced, Ready, Effect, Grafted, Less, Shaped;
    ghost var c := store.cells;
    KidReady(t, h, lo, i, c);
    DescendReady(l, t, r, cs, pos, i);
    var child := FetchChild(self, i, h, store, t);
    last, out, kres := ChangeNode(child, self, i, h - 1, cs, pos, store, t.kids[i], MIDDLE,
                              l + Front(t, i), Back(t, i) + r, Recs(t.seps), Ptrs(t.kids));
    KidCell(t.kids[i], kres, c, store.cells);
    ghost var y := PutBack(self, i, child, h, store, t, kres, c);
    res := kres.(t := y);
    OrderReaddressed(kres, y);
    SameEffect(l + Front(t, i), t.kids[i], Back(t, i) + r, cs, pos, last, kres, res);
    DescendEffect(l, t, r, cs, pos, last, i, res);
  }

  lemma OrderReaddressed(kres: Result, y: Tree)
    requires kres.t.Branch? && y.Branch? && y == kres.t.(addr := y.addr)
    ensures Order(kres.(t := y)) == Order(kres)
  {
    SameButAddr(kres.t, y, 0, 0);
  }

  lemma GrowFacts(t: Tree, h: nat, lo: nat, i: nat, res: Result)
    requires h > 1 && Shape(t, h, lo) && i < |t.kids| && res.Two?
    requires Shape(res.t, h - 1, MIDDLE) && Shape(res.r, h - 1, MIDDLE)
    ensures var g, p := Grafted(t, i, res), Ptrs(t.kids)[i := Ptr(res.t)];
            && IsNode(g) && |g.seps| == |t.seps| + 1 && AllBalanced(g.kids, h - 1)
            && Recs(g.seps) == Spliced(Recs(t.seps), i, Rec(res.m)) && Ptrs(g.kids) == Spliced(p, i + 1, Ptr(res.r))
            && forall j :: 0 <= j < |p| ==> p[j].Some?
  {
    hide Shape, AllBalanced, Recs, Ptrs, Spliced;
    ShapeNode(t, h, lo);
    ShapeNode(res.t, h - 1, MIDDLE);
    GraftRecords(t, i, res);
    InnerPtrs(t, h, lo);
    GraftBalanced(t, h, lo, i, res);
  }

  lemma ShapeNode(t: Tree, h: nat, lo: nat)
    requires Shape(t, h, lo) && h > 0
    ensures IsNode(t)
  {
  }

  lemma GraftBalanced(t: Tree, h: nat, lo: nat, i: nat, res: Result)
    requires h > 1 && Shape(t, h, lo) && i < |t.kids| && res.Two?
    requires Shape(res.t, h - 1, MIDDLE) && Shape(res.r, h - 1, MIDDLE)
    ensures AllBalanced(Grafted(t, i, res).kids, h - 1)
  {
    var k := Grafted(t, i, res).kids;
    assert k == t.kids[..i] + [res.t, res.r] + t.kids[i + 1..];
    forall j | 0 <= j < |k|
      ensures Shape(k[j], h - 1, MIDDLE)
    {
      if j < i {
        assert k[j] == t.kids[j];
      } else if j > i + 1 {
        assert k[j] == t.kids[j - 1];
      }
    }
  }

  /** Hands the change to child `i` and absorbs what the child reports. */
  method Descend(self: Node, i: nat, h: nat, cs: seq<Change>, pos: nat, store: Store,
                 ghost t: Tree, ghost lo: nat, ghost l: seq<Entry>, ghost r: seq<Entry>)
    returns (last: nat, out: Outcome, ghost res: Result)
    requires store.Valid() && h > 1 && Live(self, t, h, store.cells) && Shape(t, h, lo) && 0 < lo <= MIDDLE
    requires Ready(l, t, r, cs, pos) && i <= |t.seps|
    requires i > 0 ==> Less(t.seps[i - 1].key, cs[pos].key)
    requires i < |t.seps| ==> Less(cs[pos].key, t.seps[i].key)
    modifies store, self`changed, self.separators, self.children
    ensures store.Valid() && Live(self, res.t, h, store.cells)
    ensures Sound(old(store.cells), store.cells, t, h, lo, out, res) && Effect(l, t, r, cs, pos, last, res)
    decreases h, 1
  {
    hide Own, SepsStored, KidsStored, Stored, NoDup, From, Neat, Framed, Recs, Ptrs, InOrder, Moves, Kept, Node.Bare;
    hide Node.SepsAre, Node.KidsAre, AllBalanced, Ready, Effect, Grafted, Less, Spliced;
    ghost var c := store.cells;
    ghost var kres, k;
    var kout;
    last, kout, kres, k := ChangeKid(self, i, h, cs, pos, store, t, lo, l, r);
    ghost var g := Grafted(t, i, k);
    ghost var d := store.cells;
    match kout
    case Grow(sep, right) =>
      SameButAddr(kres.t, k.t, h - 1, MIDDLE);
      GrowFacts(t, h, lo, i, k);
      out, res := InsertSeparator(self, i, sep, Some(right), h, store, Recs(t.seps), Ptrs(t.kids)[i := Ptr(k.t)], g,
                                  lo);
      SoundAfter(c, d, store.cells, t, g, h, lo, out, res);
      OrderOne(g);
      SameEffect(l, t, r, cs, pos, last, One(g), res);
    case Done =>
      KidDone(t, h, lo, i, kres.t, k.t);
      KeptOne(g, d);
      out, res := Done, One(g);
    case Underflow =>
      KidShort(t, h, lo, i, kres.t, k.t);
      ghost var u := Rebalance(self, h, i, store, g);
      MovesTrans(c, d, store.cells, t, g, One(u));
      out := ReportRepaired(self, h, store.cells, g, u, lo);
      res := One(u);
      KeptOne(u, store.cells);
      OrderOne(g);
      SameEffect(l, t, r, cs, pos, last, One(g), res);
  }

  lemma KidDone(t: Tree, h: nat, lo: nat, i: nat, k: Tree, y: Tree)
    requires h > 1 && Shape(t, h, lo) && i < |t.kids|
    requires k.Branch? && y.Branch? && y == k.(addr := y.addr) && Shape(k, h - 1, MIDDLE)
    ensures var g := Grafted(t, i, One(y));
            && g.Branch? && g.addr == t.addr && Shape(g, h, lo)
            && Recs(g.seps) == Recs(t.seps) && Ptrs(g.kids) == Ptrs(t.kids)[i := Ptr(y)]
  {
    ShapeLower(k, h - 1, MIDDLE, MIDDLE - 1);
    GraftShape(t, h, lo, i, k, y);
    GraftRecords(t, i, One(y));
  }

  lemma KidShort(t: Tree, h: nat, lo: nat, i: nat, k: Tree, y: Tree)
    requires h > 1 && Shape(t, h, lo) && 0 < lo && i < |t.kids|
    requires k.Branch? && y.Branch? && y == k.(addr := y.addr) && Shape(k, h - 1, MIDDLE - 1) && |k.seps| < MIDDLE
    ensures var g := Grafted(t, i, One(y));
            && g.Branch? && g.addr == t.addr && Short(g, h, i) && |g.seps| == |t.seps|
            && Recs(g.seps) == Recs(t.seps) && Ptrs(g.kids) == Ptrs(t.kids)[i := Ptr(y)]
  {
    GraftShape(t, h, lo, i, k, y);
    GraftRecords(t, i, One(y));
  }

  lemma SpliceAtKid(l: seq<Entry>, t: Tree, r: seq<Entry>, cs: seq<Change>, pos: nat, i: nat, res: Result)
    requires IsNode(t) && Ready(l, t, r, cs, pos) && i <= |t.seps| && t.kids[i] == Nil
    requires i > 0 ==> Less(t.seps[i - 1].key, cs[pos].key)
    requires i < |t.seps| ==> Less(cs[pos].key, t.seps[i].key)
    requires Order(res) == Front(t, i) + Inserted(cs[pos]) + Back(t, i)
    ensures Effect(l, t, r, cs, pos, pos, res)
  {
    hide InOrder, Front, Back, Less, Apply, ApplyAll, Order, Inserted;
    var a, b := l + Front(t, i), Back(t, i) + r;
    GapAtKid(l, t, r, i, cs[pos].key);
    NilOrder();
    ApplySplice(a, [], b, cs[pos]);
    assert cs[pos..pos + 1] == [cs[pos]];
    ApplyOne(l + InOrder(t) + r, cs[pos]);
    assert l + Order(res) + r == a + Inserted(cs[pos]) + b;
  }

  lemma SpliceAtSep(l: seq<Entry>, t: Tree, r: seq<Entry>, cs: seq<Change>, pos: nat, i: nat, res: Result)
    requires IsNode(t) && Ready(l, t, r, cs, pos) && i < |t.seps| && t.seps[i].key == cs[pos].key
    requires Order(res) ==
      Front(t, i) + InOrder(t.kids[i]) + Inserted(cs[pos]) + InOrder(t.kids[i + 1]) + Back(t, i + 1)
    ensures Effect(l, t, r, cs, pos, pos, res)
  {
    hide InOrder, Front, Back, Less, Apply, ApplyAll, Order, Inserted;
    var a, b := l + Front(t, i) + InOrder(t.kids[i]), InOrder(t.kids[i + 1]) + Back(t, i + 1) + r;
    GapAtSep(l, t, r, i);
    ApplySplice(a, [Item(t.seps[i])], b, cs[pos]);
    assert cs[pos..pos + 1] == [cs[pos]];
    ApplyOne(l + InOrder(t) + r, cs[pos]);
    assert l + Order(res) + r == a + Inserted(cs[pos]) + b;
  }

  method Insert(self: Node, h: nat, cs: seq<Change>, pos: nat, value: Value, store: Store,
                ghost t: Tree, ghost lo: nat, ghost l: seq<Entry>, ghost r: seq<Entry>)
    returns (last: nat, out: Outcome, ghost res: Result)
    requires store.Valid() && h > 0 && Live(self, t, h, store.cells) && Shape(t, h, lo) && lo <= MIDDLE
    requires (h > 1 ==> lo > 0)
    requires Ready(l, t, r, cs, pos) && cs[pos].value == Some(value)
    modifies store, self`changed, self.separators, self.children
    ensures store.Valid() && Live(self, res.t, h, store.cells)
    ensures Sound(old(store.cells), store.cells, t, h, lo, out, res) && Effect(l, t, r, cs, pos, last, res)
    decreases h, 2
  {
    hide Own, SepsStored, KidsStored, Stored, NoDup, From, Neat, Framed, Ptrs, InOrder, Moves, Kept, Node.Bare;
    hide Node.SepsAre, Node.KidsAre, AllBalanced, Effect, Less, Front, Back, Sound;
    var key := cs[pos].key;
    var at, i := self.Position(key, Recs(t.seps), Ptrs(t.kids));
    if i > 0 {
      RecAt(t.seps, i - 1);
    }
    last := pos;
    if !at {
      if h > 1 {
        last, out, res := Descend(self, i, h, cs, pos, store, t, lo, l, r);
      } else {
        LeafKid(t, lo, i);
        out, res := InsertLeaf(self, i, key, value, store, t, lo);
        SpliceAtKid(l, t, r, cs, pos, i, res);
      }
    } else {
      out := Done;
      res := UpdateValue(self, i, key, value, h, store, t, lo);
      SpliceAtSep(l, t, r, cs, pos, i, res);
    }
  }

  method Remove(self: Node, h: nat, cs: seq<Change>, pos: nat, store: Store,
                ghost t: Tree, ghost lo: nat, ghost l: seq<Entry>, ghost r: seq<Entry>)
    returns (last: nat, out: Outcome, ghost res: Result)
    requires store.Valid() && h > 0 && Live(self, t, h, store.cells) && Shape(t, h, lo) && lo <= MIDDLE
    requires (h > 1 ==> lo > 0)
    requires Ready(l, t, r, cs, pos) && cs[pos].value.None?
    modifies store, self`changed, self.separators, self.children
    ensures store.Valid() && Live(self, res.t, h, store.cells)
    ensures Sound(old(store.cells), store.cells, t, h, lo, out, res) && Effect(l, t, r, cs, pos, last, res)
    decreases h, 2
  {
    hide Own, SepsStored, KidsStored, Stored, NoDup, From, Neat, Framed, Ptrs, InOrder, Moves, Kept, Node.Bare;
    hide Node.SepsAre, Node.KidsAre, AllBalanced, Effect, Less, Front, Back;
    var key := cs[pos].key;
    var at, i := self.Position(key, Recs(t.seps), Ptrs(t.kids));
    if i > 0 {
      RecAt(t.seps, i - 1);
    }
    last := pos;
    if at {
      if h > 1 {
        out, res := RemoveInner(self, i, h, store, t, lo);
      } else {
        out, res := RemoveLeaf(self, i, store, t, lo);
      }
      SpliceAtSep(l, t, r, cs, pos, i, res);
    } else if h == 1 {
      LeafKid(t, lo, i);
      out, res := Done, One(t);
      MovesRefl(store.cells, t);
      KeptOne(t, store.cells);
      GraftOrder(t, i, One(t.kids[i]));
      NilOrder();
      SpliceAtKid(l, t, r, cs, pos, i, res);
    } else {
      last, out, res := Descend(self, i, h, cs, pos, store, t, lo, l, r);
    }
  }

  /** The last of the changes to the key at `pos`. */
  method Latest(cs: seq<Change>, pos: nat) returns (p: nat)
    requires pos < |cs|
    ensures pos <= p < |cs| && forall i :: pos <= i <= p ==> cs[i].key == cs[pos].key
    ensures p + 1 < |cs| ==> cs[p + 1].key != cs[p].key
  {
    p := pos;
    while p + 1 < |cs| && cs[p].key == cs[p + 1].key
      invariant pos <= p < |cs| && forall i :: pos <= i <= p ==> cs[i].key == cs[pos].key
    {
      p := p + 1;
    }
  }

  /**
   * The key is seen to fall into the node: a separator of it is not below the key, or the parent's next one is above.
   */
  ghost predicate Stays(x: Tree, ps: seq<SepRec>, p: nat, key: Key) {
    x.Branch? &&
    ((exists i :: 0 <= i < |x.seps| && !Less(x.seps[i].key, key)) ||
     (p < |ps| && Less(key, ps[p].key) && forall j :: 0 <= j < p ==> Less(ps[j].key, key)))
  }

  lemma StaysInside(x: Tree, ps: seq<SepRec>, p: nat, key: Key, at: bool, i: nat)
    requires x.Branch? && i <= |x.seps| && (forall j :: 0 <= j < i ==> Less(Recs(x.seps)[j].key, key))
    requires (at ==> i < |x.seps| && Recs(x.seps)[i].key == key)
    requires !at && i < |x.seps| ==> Less(key, Recs(x.seps)[i].key)
    ensures i < |x.seps| ==> Stays(x, ps, p, key)
  {
    hide Less;
    LessIrreflexive(key);
    if i < |x.seps| {
      if !at {
        LessAsymmetric(key, Recs(x.seps)[i].key);
      }
      assert !Less(x.seps[i].key, key);
    }
  }

  lemma StaysBefore(x: Tree, ps: seq<SepRec>, p: nat, key: Key, i: nat, at: bool, j: nat)
    requires x.Branch? && i == |x.seps| && (forall k :: 0 <= k < i ==> Less(Recs(x.seps)[k].key, key))
    requires j <= |ps| && (forall k :: 0 <= k < j ==> Less(ps[k].key, key))
    requires (at ==> j < |ps| && ps[j].key == key) && (!at && j < |ps| ==> Less(key, ps[j].key))
    ensures Stays(x, ps, p, key) <==> !at && j == p && j < |ps|
  {
    hide Less;
    LessIrreflexive(key);
    assert forall k :: 0 <= k < |x.seps| ==> Recs(x.seps)[k].key == x.seps[k].key;
    if p < |ps| && Less(key, ps[p].key) {
      LessAsymmetric(key, ps[p].key);
    }
    if j < |ps| && Less(key, ps[j].key) {
      LessAsymmetric(key, ps[j].key);
    }
  }

  /** Applies the changes from `pos` on, as long as the next key is seen to fall into this node. */
  method ChangeNode(self: Node, parent: Node?, p: nat, h: nat, cs: seq<Change>, pos: nat, store: Store,
                ghost t: Tree, ghost lo: nat, ghost l: seq<Entry>, ghost r: seq<Entry>,
                ghost ps: seq<SepRec>, ghost pk: seq<Option<Address>>)
    returns (last: nat, out: Outcome, ghost res: Result)
    requires store.Valid() && h > 0 && Live(self, t, h, store.cells) && Shape(t, h, lo) && lo <= MIDDLE
    requires (h > 1 ==> lo > 0)
    requires Ready(l, t, r, cs, pos)
    requires Parent(parent, p, ps, pk, r) && (parent != null ==> Apart(self, parent))
    modifies store, self`changed, self.separators, self.children
    ensures store.Valid() && Live(self, res.t, h, store.cells)
    ensures Sound(old(store.cells), store.cells, t, h, lo, out, res) && Effect(l, t, r, cs, pos, last, res)
    ensures out.Done? && parent != null && last + 1 < |cs| ==> !Stays(res.t, ps, p, cs[last + 1].key)
    decreases h, 4
  {
    hide Own, SepsStored, KidsStored, Stored, NoDup, From, Neat, Framed, Recs, Ptrs, InOrder, Moves, Kept, Node.Bare;
    hide Node.SepsAre, Node.KidsAre, AllBalanced, Shape, Less, Effect, Ready, Sound, Stays;
    ghost var c := store.cells;
    last, out, res := Step(self, h, cs, pos, store, t, lo, l, r);
    while true
      invariant store.Valid() && Live(self, res.t, h, store.cells)
      invariant Sound(c, store.cells, t, h, lo, out, res) && Effect(l, t, r, cs, pos, last, res)
      invariant last < |cs|
      decreases |cs| - last
    {
      if !out.Done? || last + 1 == |cs| || parent == null {
        return;
      }
      ghost var d, x, was := store.cells, res.t, last;
      DoneFacts(c, d, t, h, lo, res);
      SortedNow(l, t, r, cs, pos, last, x);
      var more := Continues(self, parent, p, h, cs, last, x, l, r, ps, pk);
      if !more {
        return;
      }
      ReadyNext(l, t, r, cs, pos, last, x);
      last, out, res := Step(self, h, cs, last + 1, store, x, lo, l, r);
      SoundAfter(c, d, store.cells, t, x, h, lo, out, res);
      EffectTrans(l, t, r, cs, pos, was, last, x, res);
    }
  }

  lemma DoneFacts(c: Cells, d: Cells, t: Tree, h: nat, lo: nat, res: Result)
    requires Sound(c, d, t, h, lo, Done, res)
    ensures res == One(res.t) && Held(res.t, d) && Moves(c, d, t, One(res.t)) && Shape(res.t, h, lo)
    ensures res.t.Branch? && t.Branch? && res.t.addr == t.addr
  {
    hide Own, Owned, Stored, Shape, Moves;
  }

  lemma SortedNow(l: seq<Entry>, t: Tree, r: seq<Entry>, cs: seq<Change>, pos: nat, last: nat, x: Tree)
    requires Ready(l, t, r, cs, pos) && Effect(l, t, r, cs, pos, last, One(x))
    ensures Sorted(l + InOrder(x) + r)
  {
    hide InOrder, ApplyAll, Less;
    ApplyAllSorted(l + InOrder(t) + r, cs[pos..last + 1]);
    OrderOne(x);
  }

  lemma ReadyNext(l: seq<Entry>, t: Tree, r: seq<Entry>, cs: seq<Change>, pos: nat, last: nat, x: Tree)
    requires Ready(l, t, r, cs, pos) && Effect(l, t, r, cs, pos, last, One(x))
    requires last + 1 < |cs| && Above(cs[last + 1].key, r)
    ensures Ready(l, x, r, cs, last + 1)
  {
    hide InOrder, ApplyAll, Less;
    SortedNow(l, t, r, cs, pos, last, x);
    BelowLater(l, cs, last, last + 1);
  }

  lemma EffectTrans(l: seq<Entry>, t: Tree, r: seq<Entry>, cs: seq<Change>, pos: nat, was: nat, last: nat, x: Tree,
                    res: Result)
    requires Effect(l, t, r, cs, pos, was, One(x)) && Effect(l, x, r, cs, was + 1, last, res)
    ensures Effect(l, t, r, cs, pos, last, res)
  {
    hide InOrder, ApplyAll, Less;
    OrderOne(x);
    var s := l + InOrder(t) + r;
    assert cs[pos..last + 1] == cs[pos..was + 1] + cs[was + 1..last + 1];
    ApplyAllJoin(s, cs[pos..was + 1], cs[was + 1..last + 1]);
  }

  /** Decides whether the next key falls into this node: it is not above all its separators, or the parent's
      separator right of the node is above it. A key beyond both is left to the caller. */
  method Continues(self: Node, parent: Node, p: nat, h: nat, cs: seq<Change>, last: nat,
                   ghost x: Tree, ghost l: seq<Entry>, ghost r: seq<Entry>,
                   ghost ps: seq<SepRec>, ghost pk: seq<Option<Address>>)
    returns (more: bool)
    requires Mirrors(self, x, h) && |x.kids| == |x.seps| + 1 && Sorted(l + InOrder(x) + r) && last + 1 < |cs|
    requires Parent(parent, p, ps, pk, r)
    ensures more ==> Above(cs[last + 1].key, r)
    ensures more <==> Stays(x, ps, p, cs[last + 1].key)
  {
    hide InOrder, Less, Ptrs, Node.SepsAre, Node.KidsAre, Node.Bare, Above, Stays;
    var key := cs[last + 1].key;
    var at, i := self.Position(key, Recs(x.seps), Ptrs(x.kids));
    var n := self.NumberSeparator(Recs(x.seps), Ptrs(x.kids));
    StaysInside(x, ps, p, key, at, i);
    if at || i < n {
      AboveRight(l, x, r, i, key);
      return true;
    }
    var pat, j := parent.Position(key, ps, pk);
    var pn := parent.NumberSeparator(ps, pk);
    StaysBefore(x, ps, p, key, i, pat, j);
    if !pat && j == p && j < pn {
      SortedParts(l + InOrder(x), r);
      AboveFirst(key, r);
      return true;
    }
    more := false;
  }

  /** Applies the change at `pos`, the latest one to its key. */
  method Step(self: Node, h: nat, cs: seq<Change>, pos: nat, store: Store,
              ghost t: Tree, ghost lo: nat, ghost l: seq<Entry>, ghost r: seq<Entry>)
    returns (last: nat, out: Outcome, ghost res: Result)
    requires store.Valid() && h > 0 && Live(self, t, h, store.cells) && Shape(t, h, lo) && lo <= MIDDLE
    requires (h > 1 ==> lo > 0)
    requires Ready(l, t, r, cs, pos)
    modifies store, self`changed, self.separators, self.children
    ensures store.Valid() && Live(self, res.t, h, store.cells)
    ensures Sound(old(store.cells), store.cells, t, h, lo, out, res) && Effect(l, t, r, cs, pos, last, res)
    ensures pos <= last < |cs|
    decreases h, 3
  {
    hide Own, SepsStored, KidsStored, Stored, NoDup, From, Neat, Framed, Recs, Ptrs, InOrder, Moves, Kept, Node.Bare;
    hide Node.SepsAre, Node.KidsAre, AllBalanced, Shape, Less, Sound, Apply, ApplyAll, Order;
    var at := Latest(cs, pos);
    if cs[at].value.Some? {
      last, out, res := Insert(self, h, cs, at, cs[at].value.value, store, t, lo, l, r);
    } else {
      last, out, res := Remove(self, h, cs, at, store, t, lo, l, r);
    }
    ApplySkip(l + InOrder(t) + r, cs, pos, at, last);
  }
}
