/** What happens to a node when one of its children is changed and written back. */
module Kids {
  import opened Keys
  import opened Entries
  import opened Trees
  import opened Nodes
  import opened Stores
  import opened Pairs
  import opened Rebalancing

  /** Everything in `res` is stored, except possibly the newest record of its first node. */
  ghost predicate Kept(res: Result, cells: Cells) {
    && NoDup(Owned(res)) && Held(res.t, cells)
    && (res.Two? ==> SepsStored(cells, [res.m]) && Stored(cells, res.r))
  }

  ghost predicate Settled(res: Result, cells: Cells) {
    && NoDup(Owned(res)) && res.t.Branch? && Stored(cells, res.t)
    && (res.Two? ==> SepsStored(cells, [res.m]) && Stored(cells, res.r))
  }

  ghost function Beside(res: Result): multiset<Address> {
    if res.One? then multiset{} else multiset{res.m.at} + Own(res.r)
  }

  lemma OwnedIs(res: Result)
    ensures Owned(res) == Beside(res) + Own(res.t)
  {
    hide Own;
  }

  lemma BesideInCells(res: Result, c: Cells)
    requires res.Two? ==> SepsStored(c, [res.m]) && Stored(c, res.r)
    ensures forall a :: a in Beside(res) ==> a in c
  {
    hide Own;
    if res.Two? {
      hide Stored;
      StoredInCells(c, res.r);
      assert [res.m][0] == res.m;
    }
  }

  lemma BesideFrame(res: Result, c: Cells, d: Cells)
    requires res.Two? ==> SepsStored(c, [res.m]) && Stored(c, res.r)
    requires Agree(c, d, Beside(res))
    ensures res.Two? ==> SepsStored(d, [res.m]) && Stored(d, res.r)
  {
    hide Own, Stored;
    if res.Two? {
      AgreeParts(c, d, multiset{res.m.at}, Own(res.r));
      StoredFrame(c, d, res.r);
      assert [res.m][0] == res.m;
    }
  }

  /** A child was changed (`c` to `d`) and then written back (`d` to `e`). */
  lemma KidWritten(kid: Tree, res: Result, y: Tree, c: Cells, d: Cells, e: Cells)
    requires Moves(c, d, kid, res) && Kept(res, d) && res.t.addr == kid.addr
    requires y.Branch? && Stored(e, y) && NoDup(Own(y)) && Framed(d, e, multiset{kid.addr})
    requires From(d, Own(res.t), Own(y)) && Neat(d, e, Own(res.t), Own(y))
    ensures Settled(res.(t := y), e)
    ensures Framed(c, e, Own(kid)) && From(c, Own(kid), Owned(res.(t := y)))
    ensures Neat(c, e, Own(kid), Owned(res.(t := y)))
  {
    hide Own, Stored, SepsStored, KidsStored, Owned, Framed, From, Neat, NoDup, Beside, Body;
    var fin := res.(t := y);
    OwnedIs(res);
    OwnedIs(fin);
    assert Beside(fin) == Beside(res) by { BesideSame(res, y); }
    BesideInCells(res, d);
    NoDupReplace(d, Beside(res), Own(res.t), Own(y));
    FromRest(d, Beside(res), Own(res.t), Own(y));
    NeatRest(d, e, Beside(res), Own(res.t), Own(y));
    OwnAddr(res.t);
    FramedPart(d, e, multiset{kid.addr}, Own(res.t));
    RestAgrees(d, e, Beside(res), Own(res.t));
    BesideFrame(res, d, e);
    KidFrames(kid, res, y, c, d, e);
  }

  lemma BesideSame(res: Result, y: Tree)
    ensures Beside(res.(t := y)) == Beside(res)
  {
  }

  lemma KidFrames(kid: Tree, res: Result, y: Tree, c: Cells, d: Cells, e: Cells)
    requires kid.Branch? && res.t.Branch? && res.t.addr == kid.addr
    requires Framed(c, d, Body(kid)) && From(c, Own(kid), Owned(res)) && Neat(c, d, Own(kid), Owned(res))
    requires Framed(d, e, multiset{kid.addr}) && From(d, Owned(res), Owned(res.(t := y)))
    requires Neat(d, e, Owned(res), Owned(res.(t := y)))
    ensures Framed(c, e, Own(kid)) && From(c, Own(kid), Owned(res.(t := y)))
    ensures Neat(c, e, Own(kid), Owned(res.(t := y)))
  {
    hide Body, Owned;
    OwnBody(kid);
    assert kid.addr in Owned(res) by { OwnAddr(res.t); OwnedIs(res); }
    FrameTwo(c, d, e, Body(kid), multiset{kid.addr}, Own(kid), Owned(res), Owned(res.(t := y)));
    assert Body(kid) + multiset{kid.addr} == Own(kid);
  }

  lemma OwnBody(t: Tree)
    requires t.Branch?
    ensures Own(t) == multiset{t.addr} + Body(t)
  {
    hide Body;
  }

  /** The node with child `i` replaced by `res`. */
  ghost function Grafted(t: Tree, i: nat, res: Result): (u: Tree)
    requires t.Branch? && i < |t.kids| == |t.seps| + 1
    ensures u.Branch? && u.addr == t.addr
  {
    With(t, i, i, if res.One? then [] else [res.m], if res.One? then [res.t] else [res.t, res.r])
  }

  lemma GraftOwn(res: Result)
    ensures Owned(res) ==
      OwnSeps(if res.One? then [] else [res.m]) + OwnKids(if res.One? then [res.t] else [res.t, res.r])
  {
    hide Own;
    OwnOne(Sep([], 0, []), res.t);
    if res.Two? {
      PairOwnIs(Pair(res.t, res.m, res.r));
    }
  }

  lemma GraftStored(res: Result, d: Cells)
    requires Settled(res, d)
    ensures SepsStored(d, if res.One? then [] else [res.m])
    ensures KidsStored(d, if res.One? then [res.t] else [res.t, res.r])
  {
    hide NoDup;
  }

  lemma Graft(t: Tree, i: nat, res: Result, c: Cells, d: Cells)
    requires Held(t, c) && i < |t.kids| == |t.seps| + 1 && t.kids[i].Branch?
    requires Settled(res, d) && Framed(c, d, Own(t.kids[i])) && From(c, Own(t.kids[i]), Owned(res))
    requires Neat(c, d, Own(t.kids[i]), Owned(res))
    ensures Held(Grafted(t, i, res), d) && Moves(c, d, t, One(Grafted(t, i, res)))
    ensures d[t.addr] == c[t.addr]
  {
    hide Own, OwnSeps, OwnKids, SepsStored, KidsStored, Stored, Framed, From, Neat, NoDup, With;
    assert t.seps[i..i] == [] && t.kids[i..i + 1] == [t.kids[i]];
    GraftOwn(One(t.kids[i]));
    GraftOwn(res);
    GraftStored(res, d);
    OwnedOne(t.kids[i]);
    Restretch(t, i, i, if res.One? then [] else [res.m], if res.One? then [res.t] else [res.t, res.r], c, d);
  }

  lemma OwnedOne(t: Tree)
    ensures Owned(One(t)) == Own(t)
  {
  }

  lemma GraftOrder(t: Tree, i: nat, res: Result)
    requires t.Branch? && i < |t.kids| == |t.seps| + 1
    ensures InOrder(t) == Front(t, i) + InOrder(t.kids[i]) + Back(t, i)
    ensures InOrder(Grafted(t, i, res)) == Front(t, i) + Order(res) + Back(t, i)
  {
    hide InOrder, Front, Back, With;
    assert t.seps[i..i] == [] && t.kids[i..i + 1] == [t.kids[i]];
    WithOrder(t, i, i, if res.One? then [] else [res.m], if res.One? then [res.t] else [res.t, res.r]);
    FlatOne(t.kids[i]);
    FlatOne(res.t);
    if res.Two? {
      PairOrderIs(Pair(res.t, res.m, res.r));
    }
  }

  lemma FlatOne(t: Tree)
    ensures Flat([], [t]) == InOrder(t)
  {
    hide InOrder;
  }

  lemma GraftRecords(t: Tree, i: nat, res: Result)
    requires t.Branch? && i < |t.kids| == |t.seps| + 1
    ensures var u, p := Grafted(t, i, res), Ptrs(t.kids)[i := Ptr(res.t)];
            && Recs(u.seps) == (if res.One? then Recs(t.seps) else Spliced(Recs(t.seps), i, Rec(res.m)))
            && Ptrs(u.kids) == (if res.One? then p else Spliced(p, i + 1, Ptr(res.r)))
  {
    WithRecords(t, i, i, if res.One? then [] else [res.m], if res.One? then [res.t] else [res.t, res.r]);
    RecPtrLists(res);
    hide Recs, Ptrs;
  }

  lemma RecPtrLists(res: Result)
    ensures Recs([]) == [] && Ptrs([res.t]) == [Ptr(res.t)]
    ensures res.Two? ==> Recs([res.m]) == [Rec(res.m)] && Ptrs([res.t, res.r]) == [Ptr(res.t), Ptr(res.r)]
  {
  }
}
