/** How many entries a tree of a given depth holds. */
module BTreeSizes {
  import opened Keys
  import opened Entries
  import opened Trees
  import opened BTrees

  function Power(base: nat, n: nat): nat {
    if n == 0 then 1 else base * Power(base, n - 1)
  }

  lemma Times(n: nat, m: nat, p: nat)
    requires n <= m
    ensures n * p <= m * p
  {
    assert (m - n) * p >= 0;
  }

  lemma {:induction false} FlatSize(seps: seq<Sep>, kids: seq<Tree>, h: nat)
    requires |kids| == |seps| + 1 && AllBalanced(kids, h)
    ensures |kids| * Power(5, h) <= |Flat(seps, kids)| + 1 <= |kids| * Power(9, h)
    decreases h, |kids|, 1
  {
    hide Power, Shape;
    SubtreeSize(kids[0], h);
    if seps != [] {
      assert forall i :: 0 <= i < |kids[1..]| ==> kids[1..][i] == kids[i + 1];
      FlatSize(seps[1..], kids[1..], h);
      OneMore(|kids| - 1, Power(5, h));
      OneMore(|kids| - 1, Power(9, h));
    }
  }

  lemma OneMore(n: nat, p: nat)
    ensures (n + 1) * p == n * p + p
  {
  }

  /** Below the root every node has from five to nine children, so every level multiplies by no less and no more. */
  lemma {:induction false} SubtreeSize(t: Tree, h: nat)
    requires Shape(t, h, MIDDLE)
    ensures Power(5, h) <= |InOrder(t)| + 1 <= Power(9, h)
    decreases h, 0, 0
  {
    if h > 0 {
      hide Flat;
      FlatSize(t.seps, t.kids, h - 1);
      Times(5, |t.kids|, Power(5, h - 1));
      Times(|t.kids|, 9, Power(9, h - 1));
    }
  }

  /**
   * A column of depth `d` has no more than 9^(d+1) - 1 entries and, unless it is a single node, no less than 2 * 5^d -
   * 1.
   */
  lemma ColumnSize(c: Cells, root: Option<Address>, depth: nat, t: Tree)
    requires Rooted(c, root, depth, t)
    ensures |InOrder(t)| + 1 <= Power(9, depth + 1)
    ensures depth > 0 ==> 2 * Power(5, depth) <= |InOrder(t)| + 1
  {
    hide Flat, Stored, Own, Sorted, NoDup, AllBalanced;
    FlatSize(t.seps, t.kids, depth);
    Times(|t.kids|, 9, Power(9, depth));
    Times(if depth > 0 then 2 else 0, |t.kids|, Power(5, depth));
  }
}
