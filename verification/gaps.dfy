/** Where a key falls among the entries of a node, seen within the whole tree's entries. */
module Gaps {
  import opened Keys
  import opened Entries
  import opened Trees
  import opened Stores
  import opened Pairs
  import opened Kids

  /** `key` lies strictly between the entries `l` left of a node and `r` right of it. */
  ghost predicate Gap(l: seq<Entry>, key: Key, r: seq<Entry>) {
    Below(l, key) && Above(key, r)
  }

  ghost predicate SortedChanges(cs: seq<Change>) {
    forall i, j :: 0 <= i < j < |cs| ==> Less(cs[i].key, cs[j].key) || cs[i].key == cs[j].key
  }

  lemma BelowLast(a: seq<Entry>, k: Key)
    requires Sorted(a) && a != [] && (Less(a[|a| - 1].key, k) || a[|a| - 1].key == k)
    ensures Less(a[|a| - 1].key, k) ==> Below(a, k)
    ensures Below(a[..|a| - 1], k)
  {
    hide Less;
    forall i | 0 <= i < |a| - 1 ensures Less(a[i].key, k) {
      if a[|a| - 1].key != k {
        LessTransitive(a[i].key, a[|a| - 1].key, k);
      }
    }
  }

  lemma AboveFirst(k: Key, b: seq<Entry>)
    requires Sorted(b) && b != [] && (Less(k, b[0].key) || k == b[0].key)
    ensures Less(k, b[0].key) ==> Above(k, b)
    ensures Above(k, b[1..])
  {
    hide Less;
    forall i | 1 <= i < |b| ensures Less(k, b[i].key) {
      if b[0].key != k {
        LessTransitive(k, b[0].key, b[i].key);
      }
    }
  }

  lemma SortedParts(a: seq<Entry>, b: seq<Entry>)
    requires Sorted(a + b)
    ensures Sorted(a) && Sorted(b)
  {
    hide Less;
    var s := a + b;
    forall i, j | 0 <= i < j < |a| ensures Less(a[i].key, a[j].key) {
      assert a[i] == s[i] && a[j] == s[j];
    }
    forall i, j | 0 <= i < j < |b| ensures Less(b[i].key, b[j].key) {
      assert b[i] == s[|a| + i] && b[j] == s[|a| + j];
    }
  }

  /** A key between separators `i - 1` and `i` lies between everything left and right of child `i`. */
  lemma GapAtKid(l: seq<Entry>, t: Tree, r: seq<Entry>, i: nat, key: Key)
    requires t.Branch? && i <= |t.seps| && |t.kids| == |t.seps| + 1
    requires Sorted(l + InOrder(t) + r) && Gap(l, key, r)
    requires i > 0 ==> Less(t.seps[i - 1].key, key)
    requires i < |t.seps| ==> Less(key, t.seps[i].key)
    ensures Gap(l + Front(t, i), key, Back(t, i) + r)
    ensures l + InOrder(t) + r == (l + Front(t, i)) + InOrder(t.kids[i]) + (Back(t, i) + r)
  {
    hide InOrder, Front, Back, Less;
    GraftOrder(t, i, One(t.kids[i]));
    FrontBackEnds(t, i);
    var a, b := l + Front(t, i), Back(t, i) + r;
    assert l + InOrder(t) + r == a + InOrder(t.kids[i]) + b;
    SortedParts(a + InOrder(t.kids[i]), b);
    SortedParts(a, InOrder(t.kids[i]));
    if i > 0 {
      BelowLast(a, key);
    } else {
      assert a == l;
    }
    if i < |t.seps| {
      AboveFirst(key, b);
    } else {
      assert b == r;
    }
  }

  /** The entry of separator `i` lies between its two neighbouring children. */
  lemma GapAtSep(l: seq<Entry>, t: Tree, r: seq<Entry>, i: nat)
    requires t.Branch? && i < |t.seps| && |t.kids| == |t.seps| + 1 && Sorted(l + InOrder(t) + r)
    ensures Gap(l + Front(t, i) + InOrder(t.kids[i]), t.seps[i].key, InOrder(t.kids[i + 1]) + Back(t, i + 1) + r)
    ensures l + InOrder(t) + r ==
            (l + Front(t, i) + InOrder(t.kids[i])) + [Item(t.seps[i])] + (InOrder(t.kids[i + 1]) + Back(t, i + 1) + r)
  {
    hide InOrder, Front, Back, Flat, Less;
    var s, x, y := t.seps[i], t.kids[i], t.kids[i + 1];
    WithOrder(t, i, i + 1, [s], [x, y]);
    assert t.seps[i..i + 1] == [s] && t.kids[i..i + 2] == [x, y];
    PairOrderIs(Pair(x, s, y));
    var a, b := l + Front(t, i) + InOrder(x), InOrder(y) + Back(t, i + 1) + r;
    assert l + InOrder(t) + r == a + [Item(s)] + b;
    assert a + [Item(s)] + b == a + ([Item(s)] + b);
    SortedParts(a + [Item(s)], b);
    SortedParts(a, [Item(s)] + b);
    BelowLast(a + [Item(s)], s.key);
    AboveFirst(s.key, [Item(s)] + b);
    assert (a + [Item(s)])[..|a|] == a && ([Item(s)] + b)[1..] == b;
  }

  /** A key not above some separator of the node lies below everything right of the node. */
  lemma AboveRight(l: seq<Entry>, t: Tree, r: seq<Entry>, i: nat, key: Key)
    requires t.Branch? && i < |t.seps| && |t.kids| == |t.seps| + 1 && Sorted(l + InOrder(t) + r)
    requires Less(key, t.seps[i].key) || key == t.seps[i].key
    ensures Above(key, r)
  {
    hide InOrder, Front, Back, Less;
    GapAtSep(l, t, r, i);
    var b := InOrder(t.kids[i + 1]) + Back(t, i + 1) + r;
    forall j | 0 <= j < |r| ensures Less(key, r[j].key) {
      assert r[j] == b[|b| - |r| + j];
      if key != t.seps[i].key {
        LessTransitive(key, t.seps[i].key, r[j].key);
      }
    }
  }

  /** Below what is left of the current key stays below a later key. */
  lemma BelowLater(l: seq<Entry>, cs: seq<Change>, i: nat, j: nat)
    requires SortedChanges(cs) && i <= j < |cs| && Below(l, cs[i].key)
    ensures Below(l, cs[j].key)
  {
    hide Less;
    forall n | 0 <= n < |l| ensures Less(l[n].key, cs[j].key) {
      if cs[i].key != cs[j].key {
        LessTransitive(l[n].key, cs[i].key, cs[j].key);
      }
    }
  }

  // ----- folding changes

  lemma {:induction false} ApplyAllJoin(s: seq<Entry>, a: seq<Change>, b: seq<Change>)
    ensures ApplyAll(s, a + b) == ApplyAll(ApplyAll(s, a), b)
  {
    if b == [] {
      assert a + b == a;
    } else {
      var f := b[..|b| - 1];
      assert (a + b)[..|a + b| - 1] == a + f && (a + b)[|a + b| - 1] == b[|b| - 1];
      ApplyAllJoin(s, a, f);
    }
  }

  lemma ApplyOne(s: seq<Entry>, c: Change)
    ensures ApplyAll(s, [c]) == Apply(s, c)
  {
    assert [c][..0] == [];
    assert ApplyAll(s, []) == s;
  }

  /** Of a run of changes to one key only the last counts. */
  lemma {:induction false} ApplyRun(s: seq<Entry>, cs: seq<Change>)
    requires Sorted(s) && cs != [] && forall i :: 0 <= i < |cs| ==> cs[i].key == cs[|cs| - 1].key
    ensures ApplyAll(s, cs) == Apply(s, cs[|cs| - 1])
  {
    if |cs| == 1 {
      assert cs == [cs[0]];
      ApplyOne(s, cs[0]);
    } else {
      var f := cs[..|cs| - 1];
      ApplyRun(s, f);
      ApplyTwice(s, f[|f| - 1], cs[|cs| - 1]);
    }
  }

  /** Skipping changes that a later one to the same key supersedes changes nothing. */
  lemma ApplySkip(s: seq<Entry>, cs: seq<Change>, i: nat, j: nat, n: nat)
    requires Sorted(s) && i <= j <= n < |cs| && forall x :: i <= x <= j ==> cs[x].key == cs[j].key
    ensures ApplyAll(s, cs[i..n + 1]) == ApplyAll(s, cs[j..n + 1])
  {
    hide Apply, ApplyAll, Less;
    ApplyRun(s, cs[i..j + 1]);
    ApplyOne(s, cs[j]);
    assert cs[i..n + 1] == cs[i..j + 1] + cs[j + 1..n + 1];
    assert cs[j..n + 1] == [cs[j]] + cs[j + 1..n + 1];
    ApplyAllJoin(s, cs[i..j + 1], cs[j + 1..n + 1]);
    ApplyAllJoin(s, [cs[j]], cs[j + 1..n + 1]);
  }
}
