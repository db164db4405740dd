/** Applying one change to a loaded node whose children are left alone or already written back. */
module Updates {
  import opened Keys
  import opened Entries
  import opened Trees
  import opened Nodes
  import opened Stores
  import opened Pairs
  import opened Rebalancing
  import opened Kids
  import opened Changes

  /** What a node reports to its parent: nothing, a separator and right sibling to insert, or a shortage. */
  datatype Outcome = Done | Grow(sep: SepRec, right: Address) | Underflow

  ghost predicate Matches(out: Outcome, res: Result) {
    match out
    case Grow(s, a) => res.Two? && s == Rec(res.m) && Ptr(res.r) == Some(a)
    case _ => res.One?
  }

  /** `lo` separators are required of the node; a shortage is by exactly one. */
  ghost predicate Shaped(out: Outcome, res: Result, h: nat, lo: nat) {
    match out
    case Done => Shape(res.t, h, lo)
    case Grow(_, _) => res.Two? && Shape(res.t, h, MIDDLE) && Shape(res.r, h, MIDDLE)
    case Underflow => Shape(res.t, h, if lo == 0 then 0 else lo - 1) && res.t.Branch? && |res.t.seps| < MIDDLE
  }

  ghost predicate Sound(c: Cells, d: Cells, t: Tree, h: nat, lo: nat, out: Outcome, res: Result) {
    && Matches(out, res) && Shaped(out, res, h, lo)
    && t.Branch? && res.t.Branch? && res.t.addr == t.addr && Kept(res, d) && Moves(c, d, t, res)
  }

  // ----- splitting a node that has become too large

  ghost function Halves(u: Tree, ra: Address): Result
    requires IsNode(u) && |u.seps| == ORDER + 1
  {
    Two(Branch(u.addr, u.seps[..MIDDLE], u.kids[..MIDDLE + 1]), u.seps[MIDDLE],
        Branch(ra, u.seps[MIDDLE + 1..], u.kids[MIDDLE + 1..]))
  }

  lemma HalvesOrder(u: Tree, ra: Address)
    requires IsNode(u) && |u.seps| == ORDER + 1
    ensures Order(Halves(u, ra)) == InOrder(u)
  {
    var s, k := u.seps, u.kids;
    assert s == s[..MIDDLE] + [s[MIDDLE]] + s[MIDDLE + 1..] && k == k[..MIDDLE + 1] + k[MIDDLE + 1..];
    FlatJoin(s[..MIDDLE], k[..MIDDLE + 1], s[MIDDLE], s[MIDDLE + 1..], k[MIDDLE + 1..]);
  }

  lemma HalvesOwn(u: Tree, ra: Address)
    requires IsNode(u) && |u.seps| == ORDER + 1
    ensures Owned(Halves(u, ra)) == Own(u) + multiset{ra}
  {
    hide Own, OwnSeps, OwnKids;
    var s, k, res := u.seps, u.kids, Halves(u, ra);
    assert s == s[..MIDDLE] + [s[MIDDLE]] + s[MIDDLE + 1..] && k == k[..MIDDLE + 1] + k[MIDDLE + 1..];
    OwnSepsFocus(s[..MIDDLE], s[MIDDLE], s[MIDDLE + 1..]);
    OwnKidsConcat(k[..MIDDLE + 1], k[MIDDLE + 1..]);
    OwnParts(u);
    OwnParts(res.t);
    OwnParts(res.r);
    Regroup(multiset{u.addr}, OwnSeps(s[..MIDDLE]), multiset{s[MIDDLE].at}, OwnSeps(s[MIDDLE + 1..]),
            OwnKids(k[..MIDDLE + 1]), OwnKids(k[MIDDLE + 1..]), multiset{ra});
  }

  lemma Regroup(a: multiset<Address>, s1: multiset<Address>, m: multiset<Address>, s2: multiset<Address>,
                k1: multiset<Address>, k2: multiset<Address>, b: multiset<Address>)
    ensures (a + s1 + k1) + m + (b + s2 + k2) == (a + (s1 + m + s2) + (k1 + k2)) + b
  {
  }

  lemma HalvesShape(u: Tree, ra: Address, h: nat)
    requires IsNode(u) && |u.seps| == ORDER + 1 && h > 0 && AllBalanced(u.kids, h - 1)
    ensures Shape(Halves(u, ra).t, h, MIDDLE) && Shape(Halves(u, ra).r, h, MIDDLE)
  {
    var res := Halves(u, ra);
    assert forall i :: 0 <= i < |res.t.kids| ==> res.t.kids[i] == u.kids[i];
    assert forall i :: 0 <= i < |res.r.kids| ==> res.r.kids[i] == u.kids[MIDDLE + 1 + i];
  }

  lemma HalvesRecords(u: Tree, ra: Address)
    requires IsNode(u) && |u.seps| == ORDER + 1
    ensures var res, s, k := Halves(u, ra), Recs(u.seps), Ptrs(u.kids);
            && Recs(res.t.seps) == s[..MIDDLE] && Ptrs(res.t.kids) == k[..MIDDLE + 1] && Rec(res.m) == s[MIDDLE]
            && Recs(res.r.seps) == s[MIDDLE + 1..] && Ptrs(res.r.kids) == k[MIDDLE + 1..]
  {
  }

  lemma HalvesStored(u: Tree, ra: Address, c: Cells, d: Cells)
    requires IsNode(u) && |u.seps| == ORDER + 1 && Held(u, c) && ra !in c
    requires var r := Halves(u, ra).r; d == c[ra := NodeBlob(Recs(r.seps), Ptrs(r.kids))]
    ensures Kept(Halves(u, ra), d) && Moves(c, d, u, Halves(u, ra)) && d[u.addr] == c[u.addr]
  {
    hide Own, OwnSeps, OwnKids, SepsStored, Recs, Ptrs;
    var res := Halves(u, ra);
    HalvesOwn(u, ra);
    HeldInCells(u, c);
    NoDupAdd(Own(u), ra);
    OwnedIs(res);
    NoDupPart(Own(res.t), Owned(res));
    HeldSlices(c, u);
    SepsFrameAdd(c, ra, d[ra], res.t.seps);
    SepsFrameAdd(c, ra, d[ra], [res.m]);
    SepsFrameAdd(c, ra, d[ra], res.r.seps);
    KidsFrameAdd(c, ra, d[ra], res.t.kids);
    KidsFrameAdd(c, ra, d[ra], res.r.kids);
  }

  lemma HeldSlices(c: Cells, u: Tree)
    requires IsNode(u) && |u.seps| == ORDER + 1 && Held(u, c)
    ensures SepsStored(c, u.seps[..MIDDLE]) && SepsStored(c, [u.seps[MIDDLE]]) && SepsStored(c, u.seps[MIDDLE + 1..])
    ensures KidsStored(c, u.kids[..MIDDLE + 1]) && KidsStored(c, u.kids[MIDDLE + 1..])
  {
    hide Own, Stored;
  }

  lemma NoDupAdd(m: multiset<Address>, a: Address)
    requires NoDup(m) && a !in m
    ensures NoDup(m + multiset{a})
  {
    forall x ensures (m + multiset{a})[x] <= 1 {
      assert m[x] <= 1;
    }
  }

  lemma SepsFrameAdd(c: Cells, a: Address, b: Blob, ss: seq<Sep>)
    requires SepsStored(c, ss) && a !in c
    ensures SepsStored(c[a := b], ss)
  {
  }

  lemma KidsFrameAdd(c: Cells, a: Address, b: Blob, ts: seq<Tree>)
    requires KidsStored(c, ts) && a !in c
    ensures KidsStored(c[a := b], ts)
  {
    hide Own, Stored, KidsStored;
    AgreeMore(c, a, b, OwnKids(ts));
    KidsFrame(c, c[a := b], ts);
  }

  /** Inserts a separator and the child right of it into the loaded node, splitting it when full. */
  method InsertSeparator(self: Node, i: nat, sep: SepRec, child: Option<Address>, h: nat, store: Store,
                         ghost seps: seq<SepRec>, ghost ptrs: seq<Option<Address>>, ghost u: Tree, ghost lo: nat)
    returns (out: Outcome, ghost res: Result)
    requires store.Valid() && h >= 1 && lo <= MIDDLE && self.Is(seps, ptrs) && i <= |seps| <= ORDER
    requires h > 1 ==> child.Some? && forall j :: 0 <= j < |ptrs| ==> ptrs[j].Some?
    requires h == 1 ==> child.None? && self.Bare()
    requires IsNode(u) && Held(u, store.cells) && AllBalanced(u.kids, h - 1) && lo <= |u.seps|
    requires Recs(u.seps) == Spliced(seps, i, sep) && Ptrs(u.kids) == Spliced(ptrs, i + 1, child)
    modifies store, self`changed, self.separators, self.children
    ensures store.Valid() && Live(self, res.t, h, store.cells)
    ensures Sound(old(store.cells), store.cells, u, h, lo, out, res) && Order(res) == InOrder(u)
  {
    hide Own, SepsStored, KidsStored, Stored, NoDup, From, Neat, Framed, Recs, Ptrs, InOrder, Kept, Node.SepsAre;
    hide Node.KidsAre, Node.Bare, Spliced, Shape, AllBalanced, Moves, Halves;
    ghost var c := store.cells;
    var up, right := self.InsertNode(i, sep, child, h > 1, seps, ptrs);
    if up.None? {
      out, res := Done, One(u);
      ShapeIs(u, h, lo);
      MovesRefl(c, u);
      KeptOne(u, c);
    } else {
      var record := right.ToRecord(Recs(u.seps)[MIDDLE + 1..], Ptrs(u.kids)[MIDDLE + 1..]);
      var ra := store.WriteNew(record);
      HalvesRecords(u, ra);
      HalvesStored(u, ra, c, store.cells);
      HalvesOrder(u, ra);
      HalvesShape(u, ra, h);
      res := Halves(u, ra);
      HalvesHeld(u, ra, store.cells);
      out := Grow(up.value, ra);
    }
  }

  lemma ShapeIs(u: Tree, h: nat, lo: nat)
    requires h > 0 && IsNode(u) && lo <= |u.seps| <= ORDER && AllBalanced(u.kids, h - 1)
    ensures Shape(u, h, lo)
  {
  }

  lemma KeptOne(u: Tree, c: Cells)
    requires Held(u, c)
    ensures Kept(One(u), c) && Order(One(u)) == InOrder(u)
  {
  }

  lemma HalvesHeld(u: Tree, ra: Address, d: Cells)
    requires IsNode(u) && |u.seps| == ORDER + 1 && Kept(Halves(u, ra), d)
    ensures Held(Halves(u, ra).t, d) && Halves(u, ra).Two? && Halves(u, ra).t.addr == u.addr
    ensures Ptr(Halves(u, ra).r) == Some(ra)
  {
  }

  // ----- values

  lemma NilFacts(c: Cells)
    ensures Own(Nil) == multiset{} && OwnKids([Nil]) == multiset{} && OwnKids([Nil, Nil]) == multiset{}
    ensures OwnSeps([]) == multiset{} && KidsStored(c, [Nil]) && KidsStored(c, [Nil, Nil]) && SepsStored(c, [])
    ensures InOrder(Nil) == [] && Flat([], [Nil]) == [] && forall m :: Flat([m], [Nil, Nil]) == [Item(m)]
  {
    assert [Nil, Nil][1..] == [Nil] && [Nil][1..] == [];
    forall m ensures Flat([m], [Nil, Nil]) == [Item(m)] {
      assert [m][1..] == [];
      assert Flat([], [Nil]) == [];
    }
  }

  lemma SepFacts(m: Sep, c: Cells)
    requires m.at in c && c[m.at] == ValueBlob(m.value)
    ensures OwnSeps([m]) == multiset{m.at} && SepsStored(c, [m])
  {
    OwnOne(m, Nil);
  }

  /** A new value gets a new separator in a leaf. */
  lemma ValueInserted(t: Tree, i: nat, m: Sep, c: Cells)
    requires Shape(t, 1, 0) && Held(t, c) && i <= |t.seps| && m.at !in c
    ensures var u, d := With(t, i, i, [m], [Nil, Nil]), c[m.at := ValueBlob(m.value)];
            Held(u, d) && Moves(c, d, t, One(u)) && d[t.addr] == c[t.addr]
    ensures InOrder(With(t, i, i, [m], [Nil, Nil])) == Front(t, i) + [Item(m)] + Back(t, i)
  {
    hide Own, OwnSeps, OwnKids, SepsStored, KidsStored, Stored, InOrder, Flat, Front, Back, With;
    var d := c[m.at := ValueBlob(m.value)];
    assert t.seps[i..i] == [] && t.kids[i..i + 1] == [Nil];
    NilFacts(d);
    SepFacts(m, d);
    Restretch(t, i, i, [m], [Nil, Nil], c, d);
    OwnedOne(With(t, i, i, [m], [Nil, Nil]));
    WithOrder(t, i, i, [m], [Nil, Nil]);
  }

  lemma InsertedRecords(t: Tree, i: nat, m: Sep)
    requires Shape(t, 1, 0) && i <= |t.seps|
    ensures var u := With(t, i, i, [m], [Nil, Nil]);
            && IsNode(u) && |u.seps| == |t.seps| + 1 && AllBalanced(u.kids, 0)
            && Recs(u.seps) == Spliced(Recs(t.seps), i, Rec(m)) && Ptrs(u.kids) == Spliced(Ptrs(t.kids), i + 1, None)
  {
    var u := With(t, i, i, [m], [Nil, Nil]);
    WithRecords(t, i, i, [m], [Nil, Nil]);
    assert t.kids[i] == Nil && Ptrs(t.kids)[i] == None;
    assert Recs([m]) == [Rec(m)] && Ptrs([Nil, Nil]) == [None, None];
    assert Spliced(Ptrs(t.kids), i + 1, None) == Ptrs(t.kids)[..i] + [None, None] + Ptrs(t.kids)[i + 1..];
  }

  method InsertLeaf(self: Node, i: nat, key: Key, value: Value, store: Store, ghost t: Tree, ghost lo: nat)
    returns (out: Outcome, ghost res: Result)
    requires store.Valid() && Live(self, t, 1, store.cells) && Shape(t, 1, lo) && lo <= MIDDLE && i <= |t.seps|
    modifies store, self`changed, self.separators, self.children
    ensures store.Valid() && Live(self, res.t, 1, store.cells)
    ensures Sound(old(store.cells), store.cells, t, 1, lo, out, res)
    ensures Order(res) == Front(t, i) + [Entry(key, value)] + Back(t, i)
  {
    hide Own, SepsStored, KidsStored, Stored, NoDup, From, Neat, Framed, Recs, Ptrs, InOrder, Node.SepsAre;
    hide Node.KidsAre;
    hide Node.Bare, Spliced, With, Front, Back, AllBalanced, Moves, Kept;
    ghost var c := store.cells;
    ShapeLower(t, 1, lo, 0);
    var at := store.WriteNew(ValueBlob(value));
    ghost var m := Sep(key, at, value);
    ghost var u := With(t, i, i, [m], [Nil, Nil]);
    ValueInserted(t, i, m, c);
    InsertedRecords(t, i, m);
    out, res := InsertSeparator(self, i, SepRec(key, at), None, 1, store, Recs(t.seps), Ptrs(t.kids), u, lo);
    SoundAfter(c, c[at := ValueBlob(value)], store.cells, t, u, 1, lo, out, res);
  }

  lemma SoundAfter(c: Cells, d: Cells, e: Cells, t: Tree, u: Tree, h: nat, lo: nat, out: Outcome, res: Result)
    requires Held(u, d) && Moves(c, d, t, One(u)) && u.addr == t.addr && Sound(d, e, u, h, lo, out, res)
    ensures Sound(c, e, t, h, lo, out, res)
  {
    hide Own, SepsStored, KidsStored, NoDup, Owned, Body, Kept, Shaped;
    MovesTrans(c, d, e, t, u, res);
  }

  /** The new value of an existing separator is stored in place or at a new address. */
  ghost predicate ValueWritten(c: Cells, d: Cells, was: Address, m: Sep) {
    if m.at == was then d == c[was := ValueBlob(m.value)]
    else m.at !in c && d == (c - {was})[m.at := ValueBlob(m.value)]
  }

  lemma ValueReplaced(t: Tree, i: nat, m: Sep, c: Cells, d: Cells)
    requires IsNode(t) && Held(t, c) && i < |t.seps| && ValueWritten(c, d, t.seps[i].at, m)
    ensures var u := With(t, i, i + 1, [m], [t.kids[i], t.kids[i + 1]]);
            Held(u, d) && Moves(c, d, t, One(u)) && d[t.addr] == c[t.addr]
  {
    hide Own, OwnSeps, OwnKids, SepsStored, KidsStored, Stored, With, NoDup, From, Neat, Framed;
    var p := PairAt(t, i);
    var q := Pair(p.l, m, p.r);
    PairAtOwn(t, i);
    PairOwnIs(q);
    ValuePair(t, i, m, c, d);
    Restretch(t, i, i + 1, [m], [p.l, p.r], c, d);
    OwnedOne(With(t, i, i + 1, [m], [p.l, p.r]));
  }

  lemma ValuePair(t: Tree, i: nat, m: Sep, c: Cells, d: Cells)
    requires IsNode(t) && Held(t, c) && i < |t.seps| && ValueWritten(c, d, t.seps[i].at, m)
    ensures var p := PairAt(t, i); var q := Pair(p.l, m, p.r);
            && NoDup(PairOwn(q)) && Framed(c, d, PairOwn(p)) && From(c, PairOwn(p), PairOwn(q))
            && Neat(c, d, PairOwn(p), PairOwn(q))
            && SepsStored(d, [m]) && KidsStored(d, [p.l, p.r])
  {
    hide Own, OwnSeps, OwnKids, Stored, SepsStored, Body, NoDup, Framed, From, Neat, PairOwn, ValueWritten;
    var p := PairAt(t, i);
    PairAtOwn(t, i);
    SelfOwn(t, i, i + 1);
    NoDupPart(PairOwn(p), Own(t));
    ValueFrames(c, d, p.m.at, m);
    SepFacts(m, d);
    PairKids(p, m, c, d);
  }

  lemma ValueFrames(c: Cells, d: Cells, was: Address, m: Sep)
    requires ValueWritten(c, d, was, m)
    ensures Framed(c, d, multiset{was}) && From(c, multiset{was}, multiset{m.at})
    ensures Neat(c, d, multiset{was}, multiset{m.at})
    ensures m.at in d && d[m.at] == ValueBlob(m.value)
  {
  }

  lemma PairKids(p: Pair, m: Sep, c: Cells, d: Cells)
    requires NoDup(PairOwn(p)) && Stored(c, p.l) && Stored(c, p.r)
    requires Framed(c, d, multiset{p.m.at}) && From(c, multiset{p.m.at}, multiset{m.at})
    requires Neat(c, d, multiset{p.m.at}, multiset{m.at})
    ensures NoDup(PairOwn(Pair(p.l, m, p.r))) && Framed(c, d, PairOwn(p))
    ensures From(c, PairOwn(p), PairOwn(Pair(p.l, m, p.r))) && Neat(c, d, PairOwn(p), PairOwn(Pair(p.l, m, p.r)))
    ensures KidsStored(d, [p.l, p.r])
  {
    hide Own, Stored, From, Neat;
    var kids := Own(p.l) + Own(p.r);
    var o, n := multiset{p.m.at}, multiset{m.at};
    assert PairOwn(p) == kids + o && PairOwn(Pair(p.l, m, p.r)) == kids + n;
    StoredInCells(c, p.l);
    StoredInCells(c, p.r);
    NoDupReplace(c, kids, o, n);
    FromRest(c, kids, o, n);
    NeatRest(c, d, kids, o, n);
    FramedMore(c, d, kids, o);
    RestAgrees(c, d, kids, o);
    AgreeParts(c, d, Own(p.l), Own(p.r));
    StoredFrame(c, d, p.l);
    StoredFrame(c, d, p.r);
  }

  lemma ReplacedFacts(t: Tree, i: nat, m: Sep, h: nat, lo: nat)
    requires h > 0 && Shape(t, h, lo) && i < |t.seps|
    ensures var u := With(t, i, i + 1, [m], [t.kids[i], t.kids[i + 1]]);
            && Shape(u, h, lo) && Recs(u.seps) == Recs(t.seps)[i := Rec(m)] && Ptrs(u.kids) == Ptrs(t.kids)
            && InOrder(u) == Front(t, i) + InOrder(t.kids[i]) + [Item(m)] + InOrder(t.kids[i + 1]) + Back(t, i + 1)
  {
    hide InOrder, Flat, Front, Back, Recs, Ptrs;
    var w := Pair(t.kids[i], m, t.kids[i + 1]);
    PairReplacedRecords(t, i, w);
    WithOrder(t, i, i + 1, [m], [w.l, w.r]);
    PairOrderIs(w);
    PtrsUpdate(t.kids, i);
    PtrsUpdate(t.kids, i + 1);
  }

  lemma PtrsUpdate(ts: seq<Tree>, i: nat)
    requires i < |ts|
    ensures Ptrs(ts)[i := Ptr(ts[i])] == Ptrs(ts)
  {
  }

  method UpdateValue(self: Node, i: nat, key: Key, value: Value, h: nat, store: Store, ghost t: Tree, ghost lo: nat)
    returns (ghost res: Result)
    requires store.Valid() && h >= 1 && Live(self, t, h, store.cells) && Shape(t, h, lo)
    requires i < |t.seps| && t.seps[i].key == key
    modifies store, self`changed, self.separators
    ensures store.Valid() && Live(self, res.t, h, store.cells)
    ensures Sound(old(store.cells), store.cells, t, h, lo, Done, res)
    ensures Order(res) ==
      Front(t, i) + InOrder(t.kids[i]) + [Entry(key, value)] + InOrder(t.kids[i + 1]) + Back(t, i + 1)
  {
    hide Own, KidsStored, Stored, NoDup, From, Neat, Framed, Ptrs, InOrder, Node.KidsAre, Node.Bare, With, Front, Back;
    hide AllBalanced, Moves, Kept;
    ghost var c := store.cells;
    var existing := self.separators[i].value.at;
    var moved := store.WriteExisting(existing, ValueBlob(value));
    var at := if moved.Some? then moved.value else existing;
    ghost var m := Sep(key, at, value);
    var previous := self.Exchange(i, SepRec(key, at), Recs(t.seps), Ptrs(t.kids));
    ValueReplaced(t, i, m, c, store.cells);
    ReplacedFacts(t, i, m, h, lo);
    ghost var u := With(t, i, i + 1, [m], [t.kids[i], t.kids[i + 1]]);
    KeptOne(u, store.cells);
    res := One(u);
  }

  // ----- removal

  lemma ValueDropped(t: Tree, i: nat, c: Cells)
    requires Shape(t, 1, 0) && Held(t, c) && i < |t.seps|
    ensures var u, d := With(t, i, i + 1, [], [Nil]), c - {t.seps[i].at};
            Held(u, d) && Moves(c, d, t, One(u)) && d[t.addr] == c[t.addr]
    ensures InOrder(With(t, i, i + 1, [], [Nil])) == Front(t, i) + Back(t, i + 1)
  {
    hide Own, OwnSeps, OwnKids, SepsStored, KidsStored, Stored, InOrder, Flat, Front, Back, With, From, Framed, Neat;
    var d := c - {t.seps[i].at};
    OneRemoved(c, t.seps[i].at);
    assert t.seps[i..i + 1] == [t.seps[i]] && t.kids[i..i + 2] == [Nil, Nil];
    NilFacts(d);
    OwnOne(t.seps[i], Nil);
    assert OwnSeps(t.seps[i..i + 1]) + OwnKids(t.kids[i..i + 2]) == multiset{t.seps[i].at};
    assert OwnSeps([]) + OwnKids([Nil]) == multiset{};
    Restretch(t, i, i + 1, [], [Nil], c, d);
    OwnedOne(With(t, i, i + 1, [], [Nil]));
    WithOrder(t, i, i + 1, [], [Nil]);
  }

  lemma OneRemoved(c: Cells, a: Address)
    ensures Framed(c, c - {a}, multiset{a}) && From(c, multiset{a}, multiset{})
    ensures Neat(c, c - {a}, multiset{a}, multiset{})
  {
  }

  lemma DroppedRecords(t: Tree, i: nat)
    requires Shape(t, 1, 0) && i < |t.seps|
    ensures var u := With(t, i, i + 1, [], [Nil]);
            && IsNode(u) && |u.seps| == |t.seps| - 1 && AllBalanced(u.kids, 0)
            && Recs(u.seps) == Without(Recs(t.seps), i) && Ptrs(u.kids) == Without(Ptrs(t.kids), i)
    ensures AllNone(Ptrs(t.kids)) && t.kids[i] == Nil && t.kids[i + 1] == Nil
  {
    WithRecords(t, i, i + 1, [], [Nil]);
    assert t.kids[i] == Nil && t.kids[i + 1] == Nil && Ptrs(t.kids)[i + 1] == None;
    assert Recs([]) == [] && Ptrs([Nil]) == [None];
  }

  method RemoveLeaf(self: Node, i: nat, store: Store, ghost t: Tree, ghost lo: nat)
    returns (out: Outcome, ghost res: Result)
    requires store.Valid() && Live(self, t, 1, store.cells) && Shape(t, 1, lo) && lo <= MIDDLE && i < |t.seps|
    modifies store, self`changed, self.separators, self.children
    ensures store.Valid() && Live(self, res.t, 1, store.cells)
    ensures Sound(old(store.cells), store.cells, t, 1, lo, out, res)
    ensures Order(res) == Front(t, i) + InOrder(t.kids[i]) + InOrder(t.kids[i + 1]) + Back(t, i + 1)
  {
    hide Own, KidsStored, Stored, NoDup, From, Neat, Framed, Ptrs, InOrder, With, Front, Back, AllBalanced, Moves, Kept;
    ghost var c := store.cells;
    ShapeLower(t, 1, lo, 0);
    DroppedRecords(t, i);
    ValueDropped(t, i, c);
    NilFacts(c);
    var existing := self.separators[i].value.at;
    store.Remove(existing);
    var removed := self.RemoveSeparator(i);
    self.RemoveFrom(i, false, true, Recs(t.seps), Ptrs(t.kids));
    ghost var u := With(t, i, i + 1, [], [Nil]);
    res := One(u);
    KeptOne(u, store.cells);
    if self.HasSeparator(MIDDLE - 1) {
      out := Done;
      ShapeIs(u, 1, lo);
    } else {
      out := Underflow;
      ShapeIs(u, 1, if lo == 0 then 0 else lo - 1);
    }
  }

  /** The removed value's entry is freed (`c` to `b`), and then child `i` gives up its greatest entry (`b` to `e`). */
  lemma InnerRemoved(t: Tree, i: nat, y: Tree, m: Sep, c: Cells, b: Cells, e: Cells)
    requires IsNode(t) && Held(t, c) && i < |t.seps| && t.kids[i].Branch? && b == c - {t.seps[i].at}
    requires Settled(Two(y, m, Nil), e)
    requires Framed(b, e, Own(t.kids[i])) && From(b, Own(t.kids[i]), Owned(Two(y, m, Nil)))
    requires Neat(b, e, Own(t.kids[i]), Owned(Two(y, m, Nil)))
    ensures var u := With(t, i, i + 1, [m], [y, t.kids[i + 1]]);
            Held(u, e) && Moves(c, e, t, One(u)) && e[t.addr] == c[t.addr]
  {
    hide Own, OwnSeps, OwnKids, SepsStored, KidsStored, Stored, With, NoDup, From, Neat, Framed, Owned, Settled;
    var p := PairAt(t, i);
    var q := Pair(y, m, p.r);
    PairAtOwn(t, i);
    PairOwnIs(q);
    InnerPair(t, i, y, m, c, b, e);
    Restretch(t, i, i + 1, [m], [y, p.r], c, e);
    OwnedOne(With(t, i, i + 1, [m], [y, p.r]));
  }

  lemma InnerPair(t: Tree, i: nat, y: Tree, m: Sep, c: Cells, b: Cells, e: Cells)
    requires IsNode(t) && Held(t, c) && i < |t.seps| && t.kids[i].Branch? && b == c - {t.seps[i].at}
    requires Settled(Two(y, m, Nil), e)
    requires Framed(b, e, Own(t.kids[i])) && From(b, Own(t.kids[i]), Owned(Two(y, m, Nil)))
    requires Neat(b, e, Own(t.kids[i]), Owned(Two(y, m, Nil)))
    ensures var p := PairAt(t, i); var q := Pair(y, m, p.r);
            && NoDup(PairOwn(q)) && Framed(c, e, PairOwn(p)) && From(c, PairOwn(p), PairOwn(q))
            && Neat(c, e, PairOwn(p), PairOwn(q))
            && SepsStored(e, [m]) && KidsStored(e, [y, p.r])
  {
    hide Own, OwnSeps, OwnKids, Stored, SepsStored, Body, NoDup, Framed, From, Neat, Owned, PairOwn;
    var p := PairAt(t, i);
    PairAtOwn(t, i);
    SelfOwn(t, i, i + 1);
    NoDupPart(PairOwn(p), Own(t));
    TakenOwned(y, m);
    PairOwnRight(p);
    PairOwnRight(Pair(y, m, p.r));
    RemovedFrames(c, b, e, p.m.at, Own(p.l), multiset{m.at} + Own(y));
    RightKept(p.r, multiset{p.m.at} + Own(p.l), multiset{m.at} + Own(y), c, e);
  }

  lemma PairOwnRight(p: Pair)
    ensures PairOwn(p) == Own(p.r) + (multiset{p.m.at} + Own(p.l))
  {
    hide Own;
  }

  lemma RightKept(r: Tree, o: multiset<Address>, n: multiset<Address>, c: Cells, e: Cells)
    requires Stored(c, r) && NoDup(Own(r) + o) && NoDup(n) && From(c, o, n) && Neat(c, e, o, n) && Framed(c, e, o)
    ensures NoDup(Own(r) + n) && From(c, Own(r) + o, Own(r) + n) && Neat(c, e, Own(r) + o, Own(r) + n)
    ensures Framed(c, e, Own(r) + o) && Stored(e, r)
  {
    hide Own, Stored, NoDup, Framed, From, Neat;
    StoredInCells(c, r);
    NoDupReplace(c, Own(r), o, n);
    FromRest(c, Own(r), o, n);
    NeatRest(c, e, Own(r), o, n);
    FramedMore(c, e, Own(r), o);
    RestAgrees(c, e, Own(r), o);
    StoredFrame(c, e, r);
  }

  lemma TakenOwned(y: Tree, m: Sep)
    ensures Owned(Two(y, m, Nil)) == multiset{m.at} + Own(y)
  {
    hide Own;
    OwnNil();
  }

  lemma RemovedFrames(c: Cells, b: Cells, e: Cells, x: Address, o: multiset<Address>, n: multiset<Address>)
    requires b == c - {x} && Framed(b, e, o) && From(b, o, n) && Neat(b, e, o, n)
    ensures Framed(c, e, multiset{x} + o) && From(c, multiset{x} + o, n) && Neat(c, e, multiset{x} + o, n)
  {
  }

  /** The store without the removed value still holds child `i`. */
  lemma KidWithoutValue(t: Tree, i: nat, h: nat, lo: nat, c: Cells)
    requires h > 1 && Shape(t, h, lo) && Held(t, c) && i < |t.seps|
    ensures var b, k := c - {t.seps[i].at}, t.kids[i];
            && k.Branch? && Stored(b, k) && NoDup(Own(k)) && IsBranchAt(b, k)
            && Shape(k, h - 1, MIDDLE) && Shape(k, h - 1, 0)
  {
    hide Own, OwnSeps, OwnKids, SepsStored;
    KidReady(t, h, lo, i, c);
    PairAtOwn(t, i);
    SelfOwn(t, i, i + 1);
    var p := PairAt(t, i);
    NoDupPart(PairOwn(p), Own(t));
    var x := p.m.at;
    assert PairOwn(p)[x] <= 1;
    assert x !in Own(p.l);
    hide Stored;
    StoredFrame(c, c - {x}, p.l);
    OwnAddr(p.l);
  }
}
