/** Merging the commit overlay into the entries of a tree, as sequences. */
module Merging {
  import opened Keys
  import opened Entries
  import opened Gaps

  /** The commit overlay of a B-tree column in key order, one change per key. */
  ghost predicate Overlay(o: seq<Change>) {
    forall i, j :: 0 <= i < j < |o| ==> Less(o[i].key, o[j].key)
  }

  /** Merges overlay and backend; the overlay wins, and its deletions hide backend entries. */
  ghost function Merge(o: seq<Change>, b: seq<Entry>): seq<Entry>
    decreases |o| + |b|
  {
    if o == [] then b
    else if b == [] then Inserted(o[0]) + Merge(o[1..], [])
    else if Less(o[0].key, b[0].key) then Inserted(o[0]) + Merge(o[1..], b)
    else if o[0].key == b[0].key then Inserted(o[0]) + Merge(o[1..], b[1..])
    else [b[0]] + Merge(o, b[1..])
  }

  /** The entries whose keys are not below `k`. */
  ghost function FromKey(s: seq<Entry>, k: Key): seq<Entry> {
    if s == [] || !Less(s[0].key, k) then s else FromKey(s[1..], k)
  }

  /** The changes whose keys are not below `k`, or with `strict` those above it. */
  ghost function ChangesFrom(o: seq<Change>, k: Key, strict: bool): seq<Change> {
    if o == [] || Less(k, o[0].key) || (!strict && k == o[0].key) then o else ChangesFrom(o[1..], k, strict)
  }

  lemma {:induction false} MergeFirst(c: Change, o: seq<Change>, b: seq<Entry>)
    requires Overlay([c] + o)
    ensures Merge([c] + o, b) == Merge(o, Apply(b, c))
    decreases |b|
  {
    hide Less;
    var co := [c] + o;
    assert co[1..] == o;
    forall i | 0 <= i < |o| ensures Less(c.key, o[i].key) {
      assert co[0] == c && co[i + 1] == o[i];
    }
    LessIrreflexive(c.key);
    if b == [] {
      MergeInserted(c, o, []);
      assert Inserted(c) + [] == Inserted(c);
    } else if Less(c.key, b[0].key) {
      MergeInserted(c, o, b);
    } else if c.key == b[0].key {
      MergeInserted(c, o, b[1..]);
    } else {
      LessTotal(c.key, b[0].key);
      MergeFirst(c, o, b[1..]);
      var ab := Apply(b, c);
      assert ab == [b[0]] + Apply(b[1..], c) && ab[1..] == Apply(b[1..], c) && ab[0] == b[0];
      if o != [] {
        assert o[0] == co[1];
        LessTransitive(b[0].key, c.key, o[0].key);
        LessAsymmetric(b[0].key, o[0].key);
      }
    }
  }

  /** An entry below the whole overlay comes first. */
  lemma MergeInserted(c: Change, o: seq<Change>, b: seq<Entry>)
    requires forall i :: 0 <= i < |o| ==> Less(c.key, o[i].key)
    ensures Merge(o, Inserted(c) + b) == Inserted(c) + Merge(o, b)
  {
    hide Less;
    var ib := Inserted(c) + b;
    if c.value.None? {
      assert ib == b;
    } else if o != [] {
      LessAsymmetric(c.key, o[0].key);
      assert ib[1..] == b;
    }
  }

  lemma {:induction false} ApplyAllFirst(s: seq<Entry>, c: Change, o: seq<Change>)
    ensures ApplyAll(s, [c] + o) == ApplyAll(Apply(s, c), o)
  {
    ApplyAllJoin(s, [c], o);
    ApplyOne(s, c);
  }

  /** Merging an overlay gives what committing it would give. */
  lemma {:induction false} MergeIsApplyAll(o: seq<Change>, b: seq<Entry>)
    requires Overlay(o)
    ensures Merge(o, b) == ApplyAll(b, o)
    decreases |o|
  {
    if o != [] {
      assert o == [o[0]] + o[1..];
      MergeFirst(o[0], o[1..], b);
      MergeIsApplyAll(o[1..], Apply(b, o[0]));
      ApplyAllFirst(b, o[0], o[1..]);
    }
  }

  lemma {:induction false} FromKeyBelow(a: seq<Entry>, b: seq<Entry>, k: Key)
    requires Below(a, k)
    ensures FromKey(a + b, k) == FromKey(b, k)
  {
    if a == [] {
      assert a + b == b;
    } else {
      assert (a + b)[1..] == a[1..] + b;
      FromKeyBelow(a[1..], b, k);
    }
  }

  lemma {:induction false} FromKeyAbove(a: seq<Entry>, b: seq<Entry>, k: Key)
    requires Above(k, b)
    ensures FromKey(a + b, k) == FromKey(a, k) + b
  {
    if a == [] {
      assert a + b == b;
      if b != [] {
        LessAsymmetric(k, b[0].key);
      }
    } else {
      assert (a + b)[1..] == a[1..] + b;
      FromKeyAbove(a[1..], b, k);
    }
  }

  lemma FromKeyAll(s: seq<Entry>, k: Key)
    requires s != [] && !Less(s[0].key, k)
    ensures FromKey(s, k) == s
  {
  }

  lemma FromKeySkip(c: Change, s: seq<Entry>, k: Key)
    requires Less(c.key, k)
    ensures FromKey(Inserted(c) + s, k) == FromKey(s, k)
  {
    if c.value.Some? {
      assert (Inserted(c) + s)[1..] == s;
    } else {
      assert Inserted(c) + s == s;
    }
  }

  ghost predicate AtLeast(k: Key, s: seq<Entry>) {
    forall i :: 0 <= i < |s| ==> !Less(s[i].key, k)
  }

  /** Nothing below `k` on either side: nothing below `k` in the merge. */
  lemma {:induction false} MergeAtLeast(o: seq<Change>, b: seq<Entry>, k: Key)
    requires (forall i :: 0 <= i < |o| ==> !Less(o[i].key, k)) && AtLeast(k, b)
    ensures AtLeast(k, Merge(o, b)) && FromKey(Merge(o, b), k) == Merge(o, b)
    decreases |o| + |b|
  {
    hide Less;
    if o == [] {
    } else if b == [] {
      MergeAtLeast(o[1..], [], k);
    } else if Less(o[0].key, b[0].key) {
      MergeAtLeast(o[1..], b, k);
    } else if o[0].key == b[0].key {
      MergeAtLeast(o[1..], b[1..], k);
    } else {
      MergeAtLeast(o, b[1..], k);
    }
  }

  /** Starting both sides at `k` starts the merge at `k`. */
  lemma {:induction false} MergeFromKey(o: seq<Change>, b: seq<Entry>, k: Key)
    requires Overlay(o) && Sorted(b)
    ensures Merge(ChangesFrom(o, k, false), FromKey(b, k)) == FromKey(Merge(o, b), k)
    decreases |o| + |b|
  {
    hide Less;
    if o != [] && Less(o[0].key, k) {
      LessAsymmetric(o[0].key, k);
      if b == [] || Less(o[0].key, b[0].key) {
        MergeFromKey(o[1..], b, k);
        FromKeySkip(o[0], Merge(o[1..], b), k);
      } else if o[0].key == b[0].key {
        MergeFromKey(o[1..], b[1..], k);
        FromKeySkip(o[0], Merge(o[1..], b[1..]), k);
      } else {
        BackendSkip(o, b, k);
        MergeFromKey(o, b[1..], k);
      }
    } else if b != [] && Less(b[0].key, k) {
      if o != [] {
        BackendBefore(o[0].key, b[0].key, k);
      }
      BackendSkip(o, b, k);
      MergeFromKey(o, b[1..], k);
    } else {
      StartsAt(o, b, k);
      MergeAtLeast(o, b, k);
    }
  }

  lemma BackendBefore(c: Key, e: Key, k: Key)
    requires !Less(c, k) && Less(e, k)
    ensures !Less(c, e) && c != e
  {
    if Less(c, e) {
      LessTransitive(c, e, k);
    }
  }

  lemma BackendSkip(o: seq<Change>, b: seq<Entry>, k: Key)
    requires b != [] && (o == [] || (!Less(o[0].key, b[0].key) && o[0].key != b[0].key))
    requires Less(b[0].key, k) || (o != [] && Less(o[0].key, k))
    ensures Less(b[0].key, k) && FromKey(b, k) == FromKey(b[1..], k)
    ensures FromKey(Merge(o, b), k) == FromKey(Merge(o, b[1..]), k)
  {
    hide Less;
    if o != [] {
      LessTotal(o[0].key, b[0].key);
      if Less(o[0].key, k) {
        LessTransitive(b[0].key, o[0].key, k);
      }
      assert Merge(o, b)[1..] == Merge(o, b[1..]);
    }
  }

  lemma StartsAt(o: seq<Change>, b: seq<Entry>, k: Key)
    requires Overlay(o) && Sorted(b) && (o == [] || !Less(o[0].key, k)) && (b == [] || !Less(b[0].key, k))
    ensures ChangesFrom(o, k, false) == o && FromKey(b, k) == b
    ensures (forall i :: 0 <= i < |o| ==> !Less(o[i].key, k)) && AtLeast(k, b)
  {
    hide Less;
    if o != [] {
      LessTotal(o[0].key, k);
      forall i | 0 < i < |o| ensures !Less(o[i].key, k) {
        NotBelow(o[0].key, o[i].key, k);
      }
    }
    if b != [] {
      forall i | 0 < i < |b| ensures !Less(b[i].key, k) {
        NotBelow(b[0].key, b[i].key, k);
      }
    }
  }

  lemma NotBelow(a: Key, b: Key, k: Key)
    requires Less(a, b) && !Less(a, k)
    ensures !Less(b, k)
  {
    if Less(b, k) {
      LessTransitive(a, b, k);
    }
  }

  // Going on from a key.

  /** The entries whose keys are above `k`. */
  ghost function AfterKey(s: seq<Entry>, k: Key): seq<Entry> {
    var f := FromKey(s, k);
    if f != [] && f[0].key == k then f[1..] else f
  }

  ghost predicate Has(s: seq<Entry>, k: Key) {
    exists i :: 0 <= i < |s| && s[i].key == k
  }

  /** The overlay changes the key. */
  ghost predicate Mentions(o: seq<Change>, k: Key) {
    exists i :: 0 <= i < |o| && o[i].key == k
  }

  /** The overlay gives the key a value. */
  ghost predicate Puts(o: seq<Change>, k: Key) {
    exists i :: 0 <= i < |o| && o[i].key == k && o[i].value.Some?
  }

  lemma {:induction false} FromKeyHas(s: seq<Entry>, k: Key)
    requires Sorted(s)
    ensures var f := FromKey(s, k); Sorted(f) && AtLeast(k, f) && (Has(s, k) <==> f != [] && f[0].key == k)
  {
    hide Less;
    if s != [] && Less(s[0].key, k) {
      FromKeyHas(s[1..], k);
      LessIrreflexive(k);
      assert forall i :: 0 < i < |s| ==> s[i] == s[1..][i - 1];
    } else {
      StartsAt([], s, k);
      forall i | 0 < i < |s|
        ensures s[i].key != k
      {
        assert Less(s[0].key, s[i].key);
      }
    }
  }

  lemma {:induction false} ChangesFromHas(o: seq<Change>, k: Key)
    requires Overlay(o)
    ensures var c := ChangesFrom(o, k, false);
      && Overlay(c) && (forall i :: 0 <= i < |c| ==> !Less(c[i].key, k))
      && (Mentions(o, k) <==> c != [] && c[0].key == k)
      && (Puts(o, k) <==> c != [] && c[0].key == k && c[0].value.Some?)
      && ChangesFrom(o, k, true) == if c != [] && c[0].key == k then c[1..] else c
  {
    hide Less;
    LessIrreflexive(k);
    if o != [] {
      LessTotal(o[0].key, k);
      if Less(o[0].key, k) {
        LessAsymmetric(o[0].key, k);
        ChangesFromHas(o[1..], k);
        assert forall i :: 0 < i < |o| ==> o[i] == o[1..][i - 1];
      } else {
        StartsAt(o, [], k);
        forall i | 0 < i < |o|
          ensures o[i].key != k
        {
          assert Less(o[0].key, o[i].key);
        }
        if o[0].key == k && |o| > 1 {
          assert o[1..][0] == o[1] && Less(k, o[1].key);
        }
      }
    }
  }

  lemma MergeNext(c: seq<Change>, f: seq<Entry>, k: Key)
    requires Overlay(c) && Sorted(f) && AtLeast(k, f) && forall i :: 0 <= i < |c| ==> !Less(c[i].key, k)
    ensures var at, on := c != [] && c[0].key == k, f != [] && f[0].key == k;
      && (on ==> Merge(c, f) == (if at then Inserted(c[0]) + Merge(c[1..], f[1..]) else [f[0]] + Merge(c, f[1..])))
      && (at ==> Merge(c, if on then f[1..] else f) == Inserted(c[0]) + Merge(c[1..], if on then f[1..] else f))
  {
    hide Less;
    LessIrreflexive(k);
    if c != [] {
      LessTotal(c[0].key, k);
      if f != [] {
        LessTotal(f[0].key, k);
        if |f| > 1 {
          assert Less(f[0].key, f[1].key) && f[1..][0] == f[1];
        }
        if Less(k, c[0].key) {
          LessAsymmetric(k, c[0].key);
        }
      }
    }
  }

  /** Nothing but keys above `k` on either side: nothing else in the merge. */
  lemma {:induction false} MergeAbove(c: seq<Change>, f: seq<Entry>, k: Key)
    requires (forall i :: 0 <= i < |c| ==> Less(k, c[i].key)) && Above(k, f)
    ensures Above(k, Merge(c, f))
    decreases |c| + |f|
  {
    hide Less;
    if c == [] {
    } else if f == [] {
      MergeAbove(c[1..], [], k);
    } else if Less(c[0].key, f[0].key) {
      MergeAbove(c[1..], f, k);
    } else if c[0].key == f[0].key {
      MergeAbove(c[1..], f[1..], k);
    } else {
      MergeAbove(c, f[1..], k);
    }
  }

  /** The parts above `k` of what starts at `k`. */
  lemma Parts(c: seq<Change>, f: seq<Entry>, k: Key)
    requires Overlay(c) && Sorted(f) && AtLeast(k, f) && forall i :: 0 <= i < |c| ==> !Less(c[i].key, k)
    ensures forall i :: 0 <= i < |c| && (i > 0 || c[0].key != k) ==> Less(k, c[i].key)
    ensures forall i :: 0 <= i < |f| && (i > 0 || f[0].key != k) ==> Less(k, f[i].key)
  {
    hide Less;
    forall i | 0 <= i < |c| && (i > 0 || c[0].key != k)
      ensures Less(k, c[i].key)
    {
      LessTotal(c[i].key, k);
      assert i > 0 ==> Less(c[0].key, c[i].key);
    }
    forall i | 0 <= i < |f| && (i > 0 || f[0].key != k)
      ensures Less(k, f[i].key)
    {
      LessTotal(f[i].key, k);
      assert i > 0 ==> Less(f[0].key, f[i].key);
    }
  }

  /**
   * Going on above `k` in the tree, and in the overlay from `k` on. The merge is then everything from `k` on exactly if
   * `k` is not in the tree or the overlay changes it, and everything above `k` exactly if the overlay does not give `k`
   * a value.
   */
  lemma Resumed(o: seq<Change>, b: seq<Entry>, k: Key)
    requires Overlay(o) && Sorted(b)
    ensures Merge(ChangesFrom(o, k, false), AfterKey(b, k)) == FromKey(Merge(o, b), k) <==> !Has(b, k) || Mentions(o, k)
    ensures Merge(ChangesFrom(o, k, false), AfterKey(b, k)) == AfterKey(Merge(o, b), k) <==> !Puts(o, k)
  {
    hide Less, Merge, FromKey, ChangesFrom, Has, Mentions, Puts, Overlay, Sorted;
    var c, f, rest := ChangesFrom(o, k, false), FromKey(b, k), AfterKey(b, k);
    MergeFromKey(o, b, k);
    FromKeyHas(b, k);
    ChangesFromHas(o, k);
    MergeNext(c, f, k);
    Parts(c, f, k);
    LessIrreflexive(k);
    if Mentions(o, k) {
      MergeAbove(c[1..], rest, k);
    } else {
      MergeAbove(c, rest, k);
    }
  }

  /** Going on above `k` on both sides goes on above `k` in the merge. */
  lemma MergeAfterKey(o: seq<Change>, b: seq<Entry>, k: Key)
    requires Overlay(o) && Sorted(b)
    ensures Merge(ChangesFrom(o, k, true), AfterKey(b, k)) == AfterKey(Merge(o, b), k)
  {
    hide Less, Merge, FromKey, ChangesFrom, Has, Mentions, Puts, Overlay, Sorted;
    var c, f, rest := ChangesFrom(o, k, false), FromKey(b, k), AfterKey(b, k);
    MergeFromKey(o, b, k);
    FromKeyHas(b, k);
    ChangesFromHas(o, k);
    MergeNext(c, f, k);
    Parts(c, f, k);
    LessIrreflexive(k);
    if Mentions(o, k) {
      MergeAbove(c[1..], rest, k);
    } else {
      MergeAbove(c, rest, k);
    }
  }

  /** From a key on: a suffix, of the entries whose keys are not below it. */
  lemma {:induction false} FromKeyIs(s: seq<Entry>, k: Key) returns (n: nat)
    requires Sorted(s)
    ensures n <= |s| && FromKey(s, k) == s[n..]
    ensures (forall i :: 0 <= i < n ==> Less(s[i].key, k)) && forall i :: n <= i < |s| ==> !Less(s[i].key, k)
  {
    hide Less;
    if s == [] || !Less(s[0].key, k) {
      n := 0;
      StartsAt([], s, k);
    } else {
      n := FromKeyIs(s[1..], k);
      assert s[1..][n..] == s[n + 1..];
      assert forall i :: 0 < i < |s| ==> s[i] == s[1..][i - 1];
      n := n + 1;
    }
  }

  /** Above a key: a suffix, of the entries whose keys are above it. */
  lemma AfterKeyIs(s: seq<Entry>, k: Key) returns (n: nat)
    requires Sorted(s)
    ensures n <= |s| && AfterKey(s, k) == s[n..]
    ensures (forall i :: 0 <= i < n ==> !Less(k, s[i].key)) && forall i :: n <= i < |s| ==> Less(k, s[i].key)
  {
    hide Less, FromKey;
    n := FromKeyIs(s, k);
    LessIrreflexive(k);
    forall i | 0 <= i < |s|
      ensures Less(s[i].key, k) ==> !Less(k, s[i].key)
      ensures n < i ==> Less(s[n].key, s[i].key)
    {
      if Less(s[i].key, k) {
        LessAsymmetric(s[i].key, k);
      }
      LessTotal(s[i].key, k);
    }
    if n < |s| {
      LessTotal(s[n].key, k);
      forall i | n < i < |s|
        ensures Less(k, s[i].key)
      {
        LessTotal(k, s[i].key);
      }
      if s[n].key == k {
        n := n + 1;
      }
    }
  }
}
