/** The column's value tables seen as a map from addresses to contents, and how loaded nodes relate to it. */
module Stores {
  import opened Keys
  import opened Entries
  import opened Trees
  import opened Nodes

  class Store {
    var cells: Cells

    constructor (cells: Cells)
      ensures this.cells == cells
    {
      this.cells := cells;
    }

    /** Address 0 holds the table header and is never handed out. */
    ghost predicate Valid()
      reads this
    {
      0 in cells && cells[0] == Reserved
    }

    /** The allocator may return any address that is not in use. */
    method WriteNew(b: Blob) returns (a: Address)
      requires Valid()
      modifies this
      ensures Valid() && a !in old(cells) && cells == old(cells)[a := b]
    {
      ghost var n := Bound(cells.Keys);
      assert n !in cells;
      a :| a !in cells;
      cells := cells[a := b];
    }

    /** Contents that still fit their size tier are replaced in place, others move to a new address. */
    method WriteExisting(at: Address, b: Blob) returns (moved: Option<Address>)
      requires Valid() && at in cells && cells[at] != Reserved
      modifies this
      ensures Valid()
      ensures moved.None? ==> cells == old(cells)[at := b]
      ensures moved.Some? ==> moved.value !in old(cells) && cells == (old(cells) - {at})[moved.value := b]
    {
      if * {
        cells := cells[at := b];
        moved := None;
      } else {
        ghost var n := Bound(cells.Keys);
        assert n !in cells;
        var a :| a !in cells;
        cells := (cells - {at})[a := b];
        moved := Some(a);
      }
    }

    method Remove(at: Address)
      requires Valid() && at in cells && cells[at] != Reserved
      modifies this
      ensures Valid() && cells == old(cells) - {at}
    {
      cells := cells - {at};
    }
  }

  lemma {:induction false} Bound(s: set<nat>) returns (n: nat)
    ensures forall x :: x in s ==> x < n
    decreases |s|
  {
    if s == {} {
      n := 0;
    } else {
      var x :| x in s;
      var m := Bound(s - {x});
      n := if m <= x then x + 1 else m;
      assert forall y :: y in s ==> y == x || y in s - {x};
    }
  }

  // ----- loaded nodes

  ghost predicate Mirrors(c: Node, t: Tree, h: nat)
    reads c.separators, c.children
  {
    t.Branch? && c.Is(Recs(t.seps), Ptrs(t.kids)) && (h == 1 ==> c.Bare())
  }

  /** `c` is the loaded form of `t`; unless it is marked changed the store has the same record. */
  ghost predicate Live(c: Node, t: Tree, h: nat, cells: Cells)
    reads c, c.separators, c.children
  {
    && Mirrors(c, t, h) && Held(t, cells)
    && (!c.changed ==> cells[t.addr] == NodeBlob(Recs(t.seps), Ptrs(t.kids)))
  }

  /** What a change makes of a node: one node, or two with a separator to insert above them. */
  datatype Result = One(t: Tree) | Two(t: Tree, m: Sep, r: Tree)

  function Order(res: Result): seq<Entry> {
    if res.One? then InOrder(res.t) else InOrder(res.t) + [Item(res.m)] + InOrder(res.r)
  }

  function Owned(res: Result): multiset<Address> {
    if res.One? then Own(res.t) else Own(res.t) + multiset{res.m.at} + Own(res.r)
  }

  /** The step from `c` to `d` writes only below `t` and turns it into `res`. */
  ghost predicate Moves(c: Cells, d: Cells, t: Tree, res: Result) {
    t.Branch? && Framed(c, d, Body(t)) && From(c, Own(t), Owned(res)) && Neat(c, d, Own(t), Owned(res))
  }

  lemma FrameTrans(c: Cells, d: Cells, e: Cells, x: Address, b: multiset<Address>, b': multiset<Address>,
                   n: multiset<Address>)
    requires Framed(c, d, b) && From(c, multiset{x} + b, multiset{x} + b')
    requires Neat(c, d, multiset{x} + b, multiset{x} + b')
    requires Framed(d, e, b') && From(d, multiset{x} + b', n) && Neat(d, e, multiset{x} + b', n)
    requires NoDup(multiset{x} + b')
    ensures Framed(c, e, b) && From(c, multiset{x} + b, n) && Neat(c, e, multiset{x} + b, n)
  {
    assert (multiset{x} + b')[x] <= 1;
    forall a | a in c && a !in b ensures a in e && e[a] == c[a] {
      assert a in multiset{x} + b' ==> a in multiset{x} + b;
    }
  }

  lemma MovesTrans(c: Cells, d: Cells, e: Cells, t: Tree, u: Tree, res: Result)
    requires Moves(c, d, t, One(u)) && Moves(d, e, u, res)
    requires u.addr == t.addr && NoDup(Own(u))
    ensures Moves(c, e, t, res)
  {
    FrameTrans(c, d, e, t.addr, Body(t), Body(u), Owned(res));
  }

  lemma MovesRefl(c: Cells, t: Tree)
    requires t.Branch?
    ensures Moves(c, c, t, One(t))
  {
  }

  // ----- records of a node after replacing a stretch

  lemma RecsConcat(a: seq<Sep>, b: seq<Sep>)
    ensures Recs(a + b) == Recs(a) + Recs(b)
  {
  }

  lemma PtrsConcat(a: seq<Tree>, b: seq<Tree>)
    ensures Ptrs(a + b) == Ptrs(a) + Ptrs(b)
  {
  }

  lemma RecsSlice(a: seq<Sep>, i: nat, j: nat)
    requires i <= j <= |a|
    ensures Recs(a[i..j]) == Recs(a)[i..j]
  {
  }

  lemma PtrsSlice(a: seq<Tree>, i: nat, j: nat)
    requires i <= j <= |a|
    ensures Ptrs(a[i..j]) == Ptrs(a)[i..j]
  {
  }

  lemma WithRecords(t: Tree, i: nat, j: nat, sm: seq<Sep>, km: seq<Tree>)
    requires t.Branch? && i <= j <= |t.seps| && |t.kids| == |t.seps| + 1
    ensures Recs(With(t, i, j, sm, km).seps) == Recs(t.seps)[..i] + Recs(sm) + Recs(t.seps)[j..]
    ensures Ptrs(With(t, i, j, sm, km).kids) == Ptrs(t.kids)[..i] + Ptrs(km) + Ptrs(t.kids)[j + 1..]
  {
    hide Recs, Ptrs;
    assert t.seps[0..i] == t.seps[..i] && t.seps[j..|t.seps|] == t.seps[j..];
    assert t.kids[0..i] == t.kids[..i] && t.kids[j + 1..|t.kids|] == t.kids[j + 1..];
    RecsConcat(t.seps[..i] + sm, t.seps[j..]);
    RecsConcat(t.seps[..i], sm);
    PtrsConcat(t.kids[..i] + km, t.kids[j + 1..]);
    PtrsConcat(t.kids[..i], km);
    RecsSlice(t.seps, 0, i);
    RecsSlice(t.seps, j, |t.seps|);
    PtrsSlice(t.kids, 0, i);
    PtrsSlice(t.kids, j + 1, |t.kids|);
  }
}
