/** Two adjacent children and the separator between them: rotations and merging, as trees. */
module Pairs {
  import opened Keys
  import opened Entries
  import opened Trees

  datatype Pair = Pair(l: Tree, m: Sep, r: Tree)

  ghost function PairOwn(p: Pair): multiset<Address> {
    multiset{p.m.at} + Own(p.l) + Own(p.r)
  }

  ghost function PairOrder(p: Pair): seq<Entry> {
    InOrder(p.l) + [Item(p.m)] + InOrder(p.r)
  }

  lemma PairOwnIs(p: Pair)
    ensures OwnSeps([p.m]) + OwnKids([p.l, p.r]) == PairOwn(p)
  {
    hide Own;
    assert [p.m][1..] == [] && [p.l, p.r][1..] == [p.r] && [p.r][1..] == [];
    assert OwnKids([p.r]) == Own(p.r) + OwnKids([]);
    assert OwnSeps([p.m]) == multiset{p.m.at};
  }

  lemma PairOrderIs(p: Pair)
    ensures Flat([p.m], [p.l, p.r]) == PairOrder(p)
  {
    hide InOrder;
    assert [p.m][1..] == [] && [p.l, p.r][1..] == [p.r];
    assert Flat([], [p.r]) == InOrder(p.r);
  }

  /** Both children are stored and nothing is used twice. */
  ghost predicate PairStored(p: Pair, c: Cells) {
    && p.l.Branch? && p.r.Branch? && NoDup(PairOwn(p))
    && SepsStored(c, [p.m]) && Stored(c, p.l) && Stored(c, p.r)
  }

  /** Like `PairStored`, but the children's own records may be out of date. */
  ghost predicate PairHeld(p: Pair, c: Cells) {
    NoDup(PairOwn(p)) && SepsStored(c, [p.m]) && Held(p.l, c) && Held(p.r, c)
  }

  ghost predicate IsNode(t: Tree) {
    t.Branch? && |t.kids| == |t.seps| + 1
  }

  // ----- borrowing from the left sibling

  ghost function BorrowedLeft(p: Pair): Pair
    requires IsNode(p.l) && IsNode(p.r) && |p.l.seps| > 0
  {
    var n := |p.l.seps|;
    Pair(Branch(p.l.addr, p.l.seps[..n - 1], p.l.kids[..n]),
         p.l.seps[n - 1],
         Branch(p.r.addr, [p.m] + p.r.seps, [p.l.kids[n]] + p.r.kids))
  }

  lemma BorrowedLeftOrder(p: Pair)
    requires IsNode(p.l) && IsNode(p.r) && |p.l.seps| > 0
    ensures PairOrder(BorrowedLeft(p)) == PairOrder(p)
  {
    var q, n := BorrowedLeft(p), |p.l.seps|;
    var last := p.l.kids[n];
    assert p.l.seps == p.l.seps[..n - 1] + [p.l.seps[n - 1]] + [] && p.l.kids == p.l.kids[..n] + [last];
    FlatJoin(p.l.seps[..n - 1], p.l.kids[..n], p.l.seps[n - 1], [], [last]);
    assert Flat([], [last]) == InOrder(last);
    assert q.r.seps[1..] == p.r.seps && q.r.kids[1..] == p.r.kids;
    assert InOrder(p.l) == InOrder(q.l) + [Item(q.m)] + InOrder(last);
    assert InOrder(q.r) == InOrder(last) + [Item(p.m)] + InOrder(p.r);
  }

  lemma BorrowedLeftOwn(p: Pair)
    requires IsNode(p.l) && IsNode(p.r) && |p.l.seps| > 0
    ensures PairOwn(BorrowedLeft(p)) == PairOwn(p)
  {
    hide Own, OwnSeps, OwnKids;
    var q, n := BorrowedLeft(p), |p.l.seps|;
    OwnSplitSeps(p.l.seps, n - 1);
    OwnSplitKids(p.l.kids, n);
    OwnSepsConcat([p.m], p.r.seps);
    OwnKidsConcat([p.l.kids[n]], p.r.kids);
    OwnOne(p.m, p.l.kids[n]);
    OwnParts(p.l);
    OwnParts(p.r);
    OwnParts(q.l);
    OwnParts(q.r);
  }

  // ----- borrowing from the right sibling

  ghost function BorrowedRight(p: Pair): Pair
    requires IsNode(p.l) && IsNode(p.r) && |p.r.seps| > 0
  {
    Pair(Branch(p.l.addr, p.l.seps + [p.m], p.l.kids + [p.r.kids[0]]),
         p.r.seps[0],
         Branch(p.r.addr, p.r.seps[1..], p.r.kids[1..]))
  }

  lemma BorrowedRightOrder(p: Pair)
    requires IsNode(p.l) && IsNode(p.r) && |p.r.seps| > 0
    ensures PairOrder(BorrowedRight(p)) == PairOrder(p)
  {
    var q, first := BorrowedRight(p), p.r.kids[0];
    assert p.l.seps + [p.m] == p.l.seps + [p.m] + [];
    FlatJoin(p.l.seps, p.l.kids, p.m, [], [first]);
    assert Flat([], [first]) == InOrder(first);
    assert InOrder(q.l) == InOrder(p.l) + [Item(p.m)] + InOrder(first);
    assert InOrder(p.r) == InOrder(first) + [Item(q.m)] + InOrder(q.r);
  }

  lemma BorrowedRightOwn(p: Pair)
    requires IsNode(p.l) && IsNode(p.r) && |p.r.seps| > 0
    ensures PairOwn(BorrowedRight(p)) == PairOwn(p)
  {
    hide Own, OwnSeps, OwnKids;
    var q := BorrowedRight(p);
    assert p.r.seps == [p.r.seps[0]] + p.r.seps[1..] && p.r.kids == [p.r.kids[0]] + p.r.kids[1..];
    OwnSepsConcat([p.r.seps[0]], p.r.seps[1..]);
    OwnKidsConcat([p.r.kids[0]], p.r.kids[1..]);
    OwnOne(p.r.seps[0], p.r.kids[0]);
    OwnSepsConcat(p.l.seps, [p.m]);
    OwnKidsConcat(p.l.kids, [p.r.kids[0]]);
    OwnOne(p.m, p.r.kids[0]);
    OwnParts(p.l);
    OwnParts(p.r);
    OwnParts(q.l);
    OwnParts(q.r);
  }

  // ----- merging

  ghost function Merged(p: Pair): (z: Tree)
    requires IsNode(p.l) && IsNode(p.r)
    ensures z.Branch?
  {
    Branch(p.l.addr, p.l.seps + [p.m] + p.r.seps, p.l.kids + p.r.kids)
  }

  lemma MergedOrder(p: Pair)
    requires IsNode(p.l) && IsNode(p.r)
    ensures InOrder(Merged(p)) == PairOrder(p)
  {
    FlatJoin(p.l.seps, p.l.kids, p.m, p.r.seps, p.r.kids);
  }

  lemma MergedOwn(p: Pair)
    requires IsNode(p.l) && IsNode(p.r)
    ensures Own(Merged(p)) + multiset{p.r.addr} == PairOwn(p)
  {
    hide Own, OwnSeps, OwnKids;
    OwnSepsConcat(p.l.seps + [p.m], p.r.seps);
    OwnSepsConcat(p.l.seps, [p.m]);
    OwnOne(p.m, p.l);
    OwnKidsConcat(p.l.kids, p.r.kids);
    OwnParts(p.l);
    OwnParts(p.r);
    OwnParts(Merged(p));
  }

  // ----- ownership of parts

  lemma OwnParts(t: Tree)
    requires t.Branch?
    ensures Own(t) == multiset{t.addr} + OwnSeps(t.seps) + OwnKids(t.kids)
  {
    hide OwnSeps, OwnKids;
  }

  lemma OwnOne(m: Sep, t: Tree)
    ensures OwnSeps([m]) == multiset{m.at} && OwnKids([t]) == Own(t)
  {
    hide Own;
    assert [m][1..] == [] && [t][1..] == [];
  }

  lemma OwnSplitSeps(s: seq<Sep>, n: nat)
    requires |s| == n + 1
    ensures OwnSeps(s) == OwnSeps(s[..n]) + multiset{s[n].at}
  {
    hide OwnSeps;
    OwnSepsConcat(s[..n], [s[n]]);
    OwnOne(s[n], Nil);
    assert s == s[..n] + [s[n]];
  }

  lemma OwnSplitKids(s: seq<Tree>, n: nat)
    requires |s| == n + 1
    ensures OwnKids(s) == OwnKids(s[..n]) + Own(s[n])
  {
    hide OwnKids, Own;
    OwnKidsConcat(s[..n], [s[n]]);
    OwnOne(Sep([], 0, []), s[n]);
    assert s == s[..n] + [s[n]];
  }

  // ----- what the store still holds after a rotation or merge in memory

  lemma NoDupPart(m: multiset<Address>, n: multiset<Address>)
    requires NoDup(n) && m <= n
    ensures NoDup(m)
  {
    forall a ensures m[a] <= 1 {
      assert n[a] <= 1;
    }
  }

  lemma PairParts(p: Pair)
    requires NoDup(PairOwn(p))
    ensures NoDup(Own(p.l)) && NoDup(Own(p.r))
  {
    hide Own;
    NoDupPart(Own(p.l), PairOwn(p));
    NoDupPart(Own(p.r), PairOwn(p));
  }

  lemma BorrowedLeftHeld(p: Pair, c: Cells)
    requires IsNode(p.l) && IsNode(p.r) && |p.l.seps| > 0 && PairStored(p, c)
    ensures PairHeld(BorrowedLeft(p), c)
  {
    hide Own;
    var q, n := BorrowedLeft(p), |p.l.seps|;
    BorrowedLeftOwn(p);
    PairParts(q);
    StoredSlices(c, p.l, 0, n - 1);
    StoredSlices(c, p.l, n - 1, n);
    assert p.l.seps[n - 1..n] == [q.m] && p.l.seps[0..n - 1] == q.l.seps && p.l.kids[0..n] == q.l.kids;
    assert p.l.kids[n - 1..n + 1] == [p.l.kids[n - 1]] + [p.l.kids[n]];
    assert [p.l.kids[n]] == p.l.kids[n - 1..n + 1][1..];
    assert [p.m] + p.r.seps == [] + [p.m] + p.r.seps;
    SepsStoredJoin(c, [], p.m, p.r.seps);
    KidsStoredJoin(c, [p.l.kids[n]], p.r.kids);
  }

  lemma BorrowedRightHeld(p: Pair, c: Cells)
    requires IsNode(p.l) && IsNode(p.r) && |p.r.seps| > 0 && PairStored(p, c)
    ensures PairHeld(BorrowedRight(p), c)
  {
    hide Own;
    var q := BorrowedRight(p);
    BorrowedRightOwn(p);
    PairParts(q);
    StoredSlices(c, p.r, 0, 0);
    StoredSlices(c, p.r, 0, 1);
    StoredSlices(c, p.r, 1, |p.r.seps|);
    assert p.r.seps[0..1] == [q.m] && p.r.seps[1..|p.r.seps|] == q.r.seps && p.r.kids[1..|p.r.seps| + 1] == q.r.kids;
    assert p.r.kids[0..1] == [p.r.kids[0]];
    assert p.l.seps + [p.m] == p.l.seps + [p.m] + [];
    SepsStoredJoin(c, p.l.seps, p.m, []);
    KidsStoredJoin(c, p.l.kids, [p.r.kids[0]]);
  }

  lemma MergedHeld(p: Pair, c: Cells)
    requires IsNode(p.l) && IsNode(p.r) && PairStored(p, c)
    ensures Held(Merged(p), c) && p.r.addr !in Own(Merged(p))
  {
    hide Own;
    var z := Merged(p);
    MergedOwn(p);
    NoDupPart(Own(z), PairOwn(p));
    assert PairOwn(p)[p.r.addr] <= 1;
    assert [p.m][0] == p.m;
    SepsStoredJoin(c, p.l.seps, p.m, p.r.seps);
    KidsStoredJoin(c, p.l.kids, p.r.kids);
  }

  lemma StoredSlices(c: Cells, t: Tree, i: nat, j: nat)
    requires IsNode(t) && Stored(c, t) && i <= j <= |t.seps|
    ensures SepsStored(c, t.seps[i..j]) && KidsStored(c, t.kids[i..j + 1])
    ensures j > i ==> KidsStored(c, t.kids[i..j + 1][1..])
  {
  }

  lemma SepsStoredJoin(c: Cells, a: seq<Sep>, m: Sep, b: seq<Sep>)
    requires SepsStored(c, a) && SepsStored(c, [m]) && SepsStored(c, b)
    ensures SepsStored(c, a + [m] + b)
  {
    assert [m][0] == m;
  }

  lemma KidsStoredJoin(c: Cells, a: seq<Tree>, b: seq<Tree>)
    requires KidsStored(c, a) && KidsStored(c, b)
    ensures KidsStored(c, a + b)
  {
    hide Stored;
  }
}
