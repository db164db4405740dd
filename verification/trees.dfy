/** The tree a set of stored node entries stands for, and what it means for the store to hold it. */
module Trees {
  import opened Keys
  import opened Entries

  const ORDER: nat := 8
  const ORDER_CHILD: nat := ORDER + 1
  const MIDDLE: nat := ORDER / 2

  /** Address of an entry in the value tables; 0 stands for no entry. */
  type Address = nat

  /** A separator as stored in a node: its key and the address of its value. */
  datatype SepRec = SepRec(key: Key, at: Address)

  /** What an address of the column holds. A node record has one child pointer more than separators. */
  datatype Blob =
    | Reserved
    | Header(root: Address, depth: nat)
    | NodeBlob(seps: seq<SepRec>, kids: seq<Option<Address>>)
    | ValueBlob(bytes: Value)

  type Cells = map<Address, Blob>

  /** A separator together with the value its address leads to. */
  datatype Sep = Sep(key: Key, at: Address, value: Value)

  /** `Nil` is the child of a leaf, so leaves and inner nodes have the same shape. */
  datatype Tree = Nil | Branch(addr: Address, seps: seq<Sep>, kids: seq<Tree>)

  function Ptr(t: Tree): Option<Address> {
    if t.Nil? then None else Some(t.addr)
  }

  function Rec(s: Sep): SepRec {
    SepRec(s.key, s.at)
  }

  function Recs(ss: seq<Sep>): (r: seq<SepRec>)
    ensures |r| == |ss|
  {
    seq(|ss|, i requires 0 <= i < |ss| => Rec(ss[i]))
  }

  function Ptrs(ts: seq<Tree>): (r: seq<Option<Address>>)
    ensures |r| == |ts|
  {
    seq(|ts|, i requires 0 <= i < |ts| => Ptr(ts[i]))
  }

  // ----- in-order contents

  function Item(s: Sep): Entry {
    Entry(s.key, s.value)
  }

  function InOrder(t: Tree): seq<Entry>
    decreases t, 1
  {
    if t.Nil? then [] else Flat(t.seps, t.kids)
  }

  /** kid, separator, kid, separator, ..., kid */
  function Flat(seps: seq<Sep>, kids: seq<Tree>): seq<Entry>
    decreases kids, 0
  {
    if kids == [] then []
    else InOrder(kids[0]) + (if seps == [] then [] else [Item(seps[0])] + Flat(seps[1..], kids[1..]))
  }

  /** kid, separator, ..., kid, separator: what precedes a kid */
  function Pre(seps: seq<Sep>, kids: seq<Tree>): seq<Entry>
    requires |seps| == |kids|
  {
    if seps == [] then [] else InOrder(kids[0]) + [Item(seps[0])] + Pre(seps[1..], kids[1..])
  }

  /** separator, kid, ..., separator, kid: what follows a kid */
  function Post(seps: seq<Sep>, kids: seq<Tree>): seq<Entry>
    requires |seps| == |kids|
  {
    if seps == [] then [] else [Item(seps[0])] + Flat(seps[1..], kids)
  }

  lemma {:induction false} FlatJoin(s1: seq<Sep>, k1: seq<Tree>, m: Sep, s2: seq<Sep>, k2: seq<Tree>)
    requires |k1| == |s1| + 1
    ensures Flat(s1 + [m] + s2, k1 + k2) == Flat(s1, k1) + [Item(m)] + Flat(s2, k2)
  {
    var s, k := s1 + [m] + s2, k1 + k2;
    assert k[1..] == k1[1..] + k2;
    if s1 == [] {
      assert s[1..] == s2;
      assert k1[1..] + k2 == k2;
    } else {
      assert s[1..] == s1[1..] + [m] + s2;
      FlatJoin(s1[1..], k1[1..], m, s2, k2);
    }
  }

  lemma FlatJoinPost(sm: seq<Sep>, km: seq<Tree>, s2: seq<Sep>, k2: seq<Tree>)
    requires |km| == |sm| + 1 && |k2| == |s2|
    ensures Flat(sm + s2, km + k2) == Flat(sm, km) + Post(s2, k2)
  {
    if s2 == [] {
      assert sm + s2 == sm && km + k2 == km;
    } else {
      assert sm + s2 == sm + [s2[0]] + s2[1..];
      FlatJoin(sm, km, s2[0], s2[1..], k2);
    }
  }

  lemma {:induction false} FlatPre(s1: seq<Sep>, k1: seq<Tree>, s: seq<Sep>, k: seq<Tree>)
    requires |k1| == |s1| && k != []
    ensures Flat(s1 + s, k1 + k) == Pre(s1, k1) + Flat(s, k)
  {
    hide InOrder, Flat, Pre;
    PreIs(s1, k1);
    if s1 == [] {
      assert s1 + s == s && k1 + k == k;
    } else {
      assert (s1 + s)[1..] == s1[1..] + s && (k1 + k)[1..] == k1[1..] + k;
      FlatIs(s1 + s, k1 + k);
      FlatPre(s1[1..], k1[1..], s, k);
      Regrouped(InOrder(k1[0]), [Item(s1[0])], Pre(s1[1..], k1[1..]), Flat(s, k));
    }
  }

  lemma FlatIs(s: seq<Sep>, k: seq<Tree>)
    requires s != [] && k != []
    ensures Flat(s, k) == InOrder(k[0]) + ([Item(s[0])] + Flat(s[1..], k[1..]))
  {
    hide InOrder;
  }

  lemma PreIs(s: seq<Sep>, k: seq<Tree>)
    requires |s| == |k|
    ensures Pre(s, k) == if s == [] then [] else InOrder(k[0]) + [Item(s[0])] + Pre(s[1..], k[1..])
  {
    hide InOrder;
  }

  lemma Regrouped(a: seq<Entry>, b: seq<Entry>, c: seq<Entry>, d: seq<Entry>)
    ensures a + (b + (c + d)) == a + b + c + d
  {
  }

  /** A node splits into what precedes a stretch of adjacent kids, the stretch, and what follows it. */
  lemma FlatStretch(s1: seq<Sep>, k1: seq<Tree>, sm: seq<Sep>, km: seq<Tree>, s2: seq<Sep>, k2: seq<Tree>)
    requires |k1| == |s1| && |km| == |sm| + 1 && |k2| == |s2|
    ensures Flat(s1 + sm + s2, k1 + km + k2) == Pre(s1, k1) + Flat(sm, km) + Post(s2, k2)
  {
    hide Flat, Pre, Post;
    FlatPre(s1, k1, sm + s2, km + k2);
    FlatJoinPost(sm, km, s2, k2);
    assert s1 + sm + s2 == s1 + (sm + s2) && k1 + km + k2 == k1 + (km + k2);
  }

  lemma {:induction false} PreSnoc(s: seq<Sep>, k: seq<Tree>, m: Sep, x: Tree)
    requires |s| == |k|
    ensures Pre(s + [m], k + [x]) == Pre(s, k) + InOrder(x) + [Item(m)]
  {
    if s == [] {
      assert s + [m] == [m] && k + [x] == [x];
      assert Pre([m][1..], [x][1..]) == [];
    } else {
      assert (s + [m])[1..] == s[1..] + [m] && (k + [x])[1..] == k[1..] + [x];
      PreSnoc(s[1..], k[1..], m, x);
    }
  }

  // ----- shape

  /** `Nil` at height 0; otherwise a node with `lo` to ORDER separators over balanced kids one lower. */
  ghost predicate Shape(t: Tree, h: nat, lo: nat)
    decreases h, 1
  {
    if h == 0 then t.Nil?
    else t.Branch? && lo <= |t.seps| <= ORDER && |t.kids| == |t.seps| + 1 && AllBalanced(t.kids, h - 1)
  }

  ghost predicate AllBalanced(ts: seq<Tree>, h: nat)
    decreases h, 2
  {
    forall i :: 0 <= i < |ts| ==> Shape(ts[i], h, MIDDLE)
  }

  // ----- ownership

  function OwnSeps(ss: seq<Sep>): multiset<Address> {
    if ss == [] then multiset{} else multiset{ss[0].at} + OwnSeps(ss[1..])
  }

  /** Every address a tree uses, with multiplicity. */
  function Own(t: Tree): multiset<Address>
    decreases t, 2
  {
    if t.Nil? then multiset{} else multiset{t.addr} + Body(t)
  }

  function Body(t: Tree): multiset<Address>
    requires t.Branch?
    decreases t, 1
  {
    OwnSeps(t.seps) + OwnKids(t.kids)
  }

  function OwnKids(ts: seq<Tree>): multiset<Address>
    decreases ts, 0
  {
    if ts == [] then multiset{} else Own(ts[0]) + OwnKids(ts[1..])
  }

  ghost predicate NoDup(m: multiset<Address>) {
    forall a :: m[a] <= 1
  }

  lemma {:induction false} OwnSepsConcat(a: seq<Sep>, b: seq<Sep>)
    ensures OwnSeps(a + b) == OwnSeps(a) + OwnSeps(b)
  {
    if a == [] {
      assert a + b == b;
    } else {
      assert (a + b)[1..] == a[1..] + b;
      OwnSepsConcat(a[1..], b);
    }
  }

  lemma {:induction false} OwnKidsConcat(a: seq<Tree>, b: seq<Tree>)
    ensures OwnKids(a + b) == OwnKids(a) + OwnKids(b)
  {
    if a == [] {
      assert a + b == b;
    } else {
      assert (a + b)[1..] == a[1..] + b;
      OwnKidsConcat(a[1..], b);
    }
  }

  lemma OwnKidsFocus(a: seq<Tree>, x: Tree, b: seq<Tree>)
    ensures OwnKids(a + [x] + b) == OwnKids(a) + Own(x) + OwnKids(b)
  {
    OwnKidsConcat(a + [x], b);
    OwnKidsConcat(a, [x]);
    assert OwnKids([x]) == Own(x) + OwnKids([x][1..]);
  }

  lemma OwnSepsFocus(a: seq<Sep>, x: Sep, b: seq<Sep>)
    ensures OwnSeps(a + [x] + b) == OwnSeps(a) + multiset{x.at} + OwnSeps(b)
  {
    OwnSepsConcat(a + [x], b);
    OwnSepsConcat(a, [x]);
    assert OwnSeps([x]) == multiset{x.at} + OwnSeps([x][1..]);
  }

  // ----- storage

  ghost predicate SepsStored(cells: Cells, ss: seq<Sep>) {
    forall i :: 0 <= i < |ss| ==> ss[i].at in cells && cells[ss[i].at] == ValueBlob(ss[i].value)
  }

  ghost predicate Stored(cells: Cells, t: Tree)
    decreases t, 1
  {
    t.Branch? ==>
      && t.addr in cells && cells[t.addr] == NodeBlob(Recs(t.seps), Ptrs(t.kids))
      && SepsStored(cells, t.seps) && KidsStored(cells, t.kids)
  }

  ghost predicate KidsStored(cells: Cells, ts: seq<Tree>)
    decreases ts, 0
  {
    forall i :: 0 <= i < |ts| ==> Stored(cells, ts[i])
  }

  /** The two stores agree on the addresses of `m`. */
  ghost predicate Agree(c: Cells, d: Cells, m: multiset<Address>) {
    forall a :: a in m && a in c ==> a in d && d[a] == c[a]
  }

  lemma {:induction false} OwnSepsMember(ss: seq<Sep>, i: nat)
    requires i < |ss|
    ensures ss[i].at in OwnSeps(ss)
  {
    hide OwnSeps;
    OwnSepsFocus(ss[..i], ss[i], ss[i + 1..]);
    assert ss == ss[..i] + [ss[i]] + ss[i + 1..];
  }

  lemma {:induction false} OwnKidsMember(ts: seq<Tree>, i: nat)
    requires i < |ts|
    ensures Own(ts[i]) <= OwnKids(ts)
  {
    hide OwnKids, Own;
    OwnKidsFocus(ts[..i], ts[i], ts[i + 1..]);
    assert ts == ts[..i] + [ts[i]] + ts[i + 1..];
  }

  lemma {:induction false} SepsFrame(c: Cells, d: Cells, ss: seq<Sep>)
    requires SepsStored(c, ss) && Agree(c, d, OwnSeps(ss))
    ensures SepsStored(d, ss)
  {
    forall i | 0 <= i < |ss| ensures ss[i].at in d && d[ss[i].at] == ValueBlob(ss[i].value) {
      OwnSepsMember(ss, i);
    }
  }

  lemma {:induction false} StoredFrame(c: Cells, d: Cells, t: Tree)
    requires Stored(c, t) && Agree(c, d, Own(t))
    ensures Stored(d, t)
    decreases t, 1
  {
    if t.Branch? {
      assert t.addr in Own(t);
      SepsFrame(c, d, t.seps);
      KidsFrame(c, d, t.kids);
    }
  }

  lemma {:induction false} KidsFrame(c: Cells, d: Cells, ts: seq<Tree>)
    requires KidsStored(c, ts) && Agree(c, d, OwnKids(ts))
    ensures KidsStored(d, ts)
    decreases ts, 0
  {
    forall i | 0 <= i < |ts| ensures Stored(d, ts[i]) {
      OwnKidsMember(ts, i);
      StoredFrame(c, d, ts[i]);
    }
  }

  // ----- replacing a stretch of a node

  /** `t` with separators `i..j` and the kids between and around them replaced. */
  ghost function With(t: Tree, i: nat, j: nat, sm: seq<Sep>, km: seq<Tree>): (u: Tree)
    requires t.Branch? && i <= j <= |t.seps| && |t.kids| == |t.seps| + 1
    ensures u.Branch? && u.addr == t.addr
  {
    Branch(t.addr, t.seps[..i] + sm + t.seps[j..], t.kids[..i] + km + t.kids[j + 1..])
  }

  lemma WithSelf(t: Tree, i: nat, j: nat)
    requires t.Branch? && i <= j <= |t.seps| && |t.kids| == |t.seps| + 1
    ensures With(t, i, j, t.seps[i..j], t.kids[i..j + 1]) == t
  {
    assert t.seps == t.seps[..i] + t.seps[i..j] + t.seps[j..];
    assert t.kids == t.kids[..i] + t.kids[i..j + 1] + t.kids[j + 1..];
  }

  /** What precedes and follows the stretch in order. */
  ghost function Front(t: Tree, i: nat): seq<Entry>
    requires t.Branch? && i <= |t.seps| && |t.kids| == |t.seps| + 1
  {
    Pre(t.seps[..i], t.kids[..i])
  }

  ghost function Back(t: Tree, j: nat): seq<Entry>
    requires t.Branch? && j <= |t.seps| && |t.kids| == |t.seps| + 1
  {
    Post(t.seps[j..], t.kids[j + 1..])
  }

  lemma WithOrder(t: Tree, i: nat, j: nat, sm: seq<Sep>, km: seq<Tree>)
    requires t.Branch? && i <= j <= |t.seps| && |t.kids| == |t.seps| + 1 && |km| == |sm| + 1
    ensures InOrder(t) == Front(t, i) + Flat(t.seps[i..j], t.kids[i..j + 1]) + Back(t, j)
    ensures InOrder(With(t, i, j, sm, km)) == Front(t, i) + Flat(sm, km) + Back(t, j)
  {
    FlatStretch(t.seps[..i], t.kids[..i], t.seps[i..j], t.kids[i..j + 1], t.seps[j..], t.kids[j + 1..]);
    FlatStretch(t.seps[..i], t.kids[..i], sm, km, t.seps[j..], t.kids[j + 1..]);
    WithSelf(t, i, j);
  }

  /** The entries before a kid end with the separator left of it, those after start with the one right of it. */
  lemma FrontBackEnds(t: Tree, i: nat)
    requires t.Branch? && i <= |t.seps| && |t.kids| == |t.seps| + 1
    ensures if i == 0 then Front(t, i) == []
      else Front(t, i) != [] && Front(t, i)[|Front(t, i)| - 1] == Item(t.seps[i - 1])
    ensures if i == |t.seps| then Back(t, i) == [] else Back(t, i) != [] && Back(t, i)[0] == Item(t.seps[i])
  {
    if i > 0 {
      PreSnoc(t.seps[..i - 1], t.kids[..i - 1], t.seps[i - 1], t.kids[i - 1]);
      assert t.seps[..i] == t.seps[..i - 1] + [t.seps[i - 1]] && t.kids[..i] == t.kids[..i - 1] + [t.kids[i - 1]];
    }
  }

  /** The node's separators and kids are stored; its own record may be out of date. */
  ghost predicate Held(t: Tree, cells: Cells) {
    t.Branch? && t.addr in cells && NoDup(Own(t)) && SepsStored(cells, t.seps) && KidsStored(cells, t.kids)
  }

  /** Every address outside `m` keeps its contents. */
  ghost predicate Framed(c: Cells, d: Cells, m: multiset<Address>) {
    forall a :: a in c && a !in m ==> a in d && d[a] == c[a]
  }

  /** Every address of `n` is one of `o` or was free. */
  ghost predicate From(c: Cells, o: multiset<Address>, n: multiset<Address>) {
    forall a :: a in n ==> a in o || a !in c
  }

  /** An emptied node, as one is left behind by a merge, where nothing points. */
  ghost predicate Orphan(b: Blob) {
    b == NodeBlob([], [None])
  }

  /** Nothing of `o` is left but what is in `n`: every entry there is was there before and not in `o`, or is in `n`. */
  ghost predicate Neat(c: Cells, d: Cells, o: multiset<Address>, n: multiset<Address>) {
    forall a :: a in d && a != 0 ==> (a in c && a !in o) || a in n || Orphan(d[a])
  }

  lemma {:induction false} SepsInCells(c: Cells, ss: seq<Sep>)
    requires SepsStored(c, ss)
    ensures forall a :: a in OwnSeps(ss) ==> a in c
  {
    if ss != [] {
      assert forall i :: 0 <= i < |ss[1..]| ==> ss[1..][i] == ss[i + 1];
      SepsInCells(c, ss[1..]);
    }
  }

  lemma {:induction false} StoredInCells(c: Cells, t: Tree)
    requires Stored(c, t)
    ensures forall a :: a in Own(t) ==> a in c
    decreases t, 1
  {
    if t.Branch? {
      SepsInCells(c, t.seps);
      KidsInCells(c, t.kids);
    }
  }

  lemma {:induction false} KidsInCells(c: Cells, ts: seq<Tree>)
    requires KidsStored(c, ts)
    ensures forall a :: a in OwnKids(ts) ==> a in c
    decreases ts, 0
  {
    if ts != [] {
      StoredInCells(c, ts[0]);
      assert forall i :: 0 <= i < |ts[1..]| ==> ts[1..][i] == ts[i + 1];
      KidsInCells(c, ts[1..]);
    }
  }

  lemma NoDupReplace(c: Cells, rest: multiset<Address>, o: multiset<Address>, n: multiset<Address>)
    requires NoDup(rest + o) && NoDup(n) && From(c, o, n)
    requires forall a :: a in rest ==> a in c
    ensures NoDup(rest + n)
  {
    forall a ensures (rest + n)[a] <= 1 {
      assert (rest + o)[a] <= 1 && n[a] <= 1;
      assert (rest + o)[a] == rest[a] + o[a];
    }
  }

  /** The addresses a node uses outside a stretch. */
  ghost function Around(t: Tree, i: nat, j: nat): multiset<Address>
    requires t.Branch? && i <= j <= |t.seps| && |t.kids| == |t.seps| + 1
  {
    OwnSeps(t.seps[..i]) + OwnSeps(t.seps[j..]) + OwnKids(t.kids[..i]) + OwnKids(t.kids[j + 1..])
  }

  lemma WithOwn(t: Tree, i: nat, j: nat, sm: seq<Sep>, km: seq<Tree>)
    requires t.Branch? && i <= j <= |t.seps| && |t.kids| == |t.seps| + 1
    ensures Body(With(t, i, j, sm, km)) == Around(t, i, j) + (OwnSeps(sm) + OwnKids(km))
    ensures Own(With(t, i, j, sm, km)) == multiset{t.addr} + Around(t, i, j) + (OwnSeps(sm) + OwnKids(km))
  {
    OwnSepsConcat(t.seps[..i] + sm, t.seps[j..]);
    OwnSepsConcat(t.seps[..i], sm);
    OwnKidsConcat(t.kids[..i] + km, t.kids[j + 1..]);
    OwnKidsConcat(t.kids[..i], km);
  }

  lemma SelfOwn(t: Tree, i: nat, j: nat)
    requires t.Branch? && i <= j <= |t.seps| && |t.kids| == |t.seps| + 1
    ensures Body(t) == Around(t, i, j) + (OwnSeps(t.seps[i..j]) + OwnKids(t.kids[i..j + 1]))
    ensures Own(t) == multiset{t.addr} + Around(t, i, j) + (OwnSeps(t.seps[i..j]) + OwnKids(t.kids[i..j + 1]))
  {
    hide OwnSeps, OwnKids, Around;
    WithSelf(t, i, j);
    WithOwn(t, i, j, t.seps[i..j], t.kids[i..j + 1]);
  }

  lemma AroundInCells(t: Tree, i: nat, j: nat, c: Cells)
    requires Held(t, c) && i <= j <= |t.seps| && |t.kids| == |t.seps| + 1
    ensures forall a :: a in multiset{t.addr} + Around(t, i, j) ==> a in c
  {
    SepsInCells(c, t.seps[..i]);
    SepsInCells(c, t.seps[j..]);
    KidsInCells(c, t.kids[..i]);
    KidsInCells(c, t.kids[j + 1..]);
  }

  lemma FromRest(c: Cells, rest: multiset<Address>, o: multiset<Address>, n: multiset<Address>)
    requires From(c, o, n)
    ensures From(c, rest + o, rest + n)
  {
  }

  lemma NeatRest(c: Cells, d: Cells, rest: multiset<Address>, o: multiset<Address>, n: multiset<Address>)
    requires Neat(c, d, o, n)
    ensures Neat(c, d, rest + o, rest + n)
  {
  }

  lemma FramedMore(c: Cells, d: Cells, rest: multiset<Address>, o: multiset<Address>)
    requires Framed(c, d, o)
    ensures Framed(c, d, rest + o)
  {
  }

  lemma RestAgrees(c: Cells, d: Cells, rest: multiset<Address>, o: multiset<Address>)
    requires NoDup(rest + o) && Framed(c, d, o)
    ensures Agree(c, d, rest)
  {
    forall a | a in rest && a in c ensures a in d && d[a] == c[a] {
      assert (rest + o)[a] <= 1;
      assert a !in o;
    }
  }

  lemma SepsRestored(c: Cells, d: Cells, s1: seq<Sep>, sm: seq<Sep>, s2: seq<Sep>)
    requires SepsStored(c, s1) && SepsStored(c, s2) && SepsStored(d, sm)
    requires Agree(c, d, OwnSeps(s1)) && Agree(c, d, OwnSeps(s2))
    ensures SepsStored(d, s1 + sm + s2)
  {
    SepsFrame(c, d, s1);
    SepsFrame(c, d, s2);
  }

  lemma KidsRestored(c: Cells, d: Cells, k1: seq<Tree>, km: seq<Tree>, k2: seq<Tree>)
    requires KidsStored(c, k1) && KidsStored(c, k2) && KidsStored(d, km)
    requires Agree(c, d, OwnKids(k1)) && Agree(c, d, OwnKids(k2))
    ensures KidsStored(d, k1 + km + k2)
  {
    KidsFrame(c, d, k1);
    KidsFrame(c, d, k2);
  }

  lemma AgreeParts(c: Cells, d: Cells, m: multiset<Address>, n: multiset<Address>)
    requires Agree(c, d, m + n)
    ensures Agree(c, d, m) && Agree(c, d, n)
  {
  }

  lemma AroundStored(t: Tree, i: nat, j: nat, sm: seq<Sep>, km: seq<Tree>, c: Cells, d: Cells)
    requires Held(t, c) && i <= j <= |t.seps| && |t.kids| == |t.seps| + 1
    requires SepsStored(d, sm) && KidsStored(d, km) && Agree(c, d, Around(t, i, j))
    ensures SepsStored(d, With(t, i, j, sm, km).seps) && KidsStored(d, With(t, i, j, sm, km).kids)
  {
    hide OwnSeps, OwnKids, Own;
    AgreeParts(c, d, OwnSeps(t.seps[..i]) + OwnSeps(t.seps[j..]) + OwnKids(t.kids[..i]), OwnKids(t.kids[j + 1..]));
    AgreeParts(c, d, OwnSeps(t.seps[..i]) + OwnSeps(t.seps[j..]), OwnKids(t.kids[..i]));
    AgreeParts(c, d, OwnSeps(t.seps[..i]), OwnSeps(t.seps[j..]));
    SepsRestored(c, d, t.seps[..i], sm, t.seps[j..]);
    KidsRestored(c, d, t.kids[..i], km, t.kids[j + 1..]);
  }

  /** A change of the store that stays within one stretch of a node leaves the rest of the node held. */
  lemma Restretch(t: Tree, i: nat, j: nat, sm: seq<Sep>, km: seq<Tree>, c: Cells, d: Cells)
    requires Held(t, c) && i <= j <= |t.seps| && |t.kids| == |t.seps| + 1
    requires SepsStored(d, sm) && KidsStored(d, km) && NoDup(OwnSeps(sm) + OwnKids(km))
    requires Framed(c, d, OwnSeps(t.seps[i..j]) + OwnKids(t.kids[i..j + 1]))
    requires From(c, OwnSeps(t.seps[i..j]) + OwnKids(t.kids[i..j + 1]), OwnSeps(sm) + OwnKids(km))
    requires Neat(c, d, OwnSeps(t.seps[i..j]) + OwnKids(t.kids[i..j + 1]), OwnSeps(sm) + OwnKids(km))
    ensures Held(With(t, i, j, sm, km), d)
    ensures Framed(c, d, Body(t)) && From(c, Own(t), Own(With(t, i, j, sm, km)))
    ensures Neat(c, d, Own(t), Own(With(t, i, j, sm, km)))
    ensures d[t.addr] == c[t.addr]
  {
    hide OwnSeps, OwnKids, Own, Body, Stored, SepsStored, KidsStored, Around, From, Neat, Framed, NoDup;
    var o, n := OwnSeps(t.seps[i..j]) + OwnKids(t.kids[i..j + 1]), OwnSeps(sm) + OwnKids(km);
    SelfOwn(t, i, j);
    WithOwn(t, i, j, sm, km);
    var rest := multiset{t.addr} + Around(t, i, j);
    AroundInCells(t, i, j, c);
    NoDupReplace(c, rest, o, n);
    FromRest(c, rest, o, n);
    NeatRest(c, d, rest, o, n);
    FramedMore(c, d, Around(t, i, j), o);
    RestAgrees(c, d, rest, o);
    AgreeParts(c, d, multiset{t.addr}, Around(t, i, j));
    AroundStored(t, i, j, sm, km, c, d);
  }

  /** A node's address matters neither to its sequence nor to its shape. */
  lemma SameButAddr(x: Tree, y: Tree, h: nat, lo: nat)
    requires x.Branch? && y.Branch? && y == x.(addr := y.addr)
    ensures InOrder(y) == InOrder(x) && (Shape(x, h, lo) ==> Shape(y, h, lo))
  {
  }

  lemma LeafKid(t: Tree, lo: nat, i: nat)
    requires Shape(t, 1, lo) && i <= |t.seps|
    ensures t.kids[i] == Nil
  {
  }
}
