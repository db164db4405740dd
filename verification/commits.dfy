/** Queued commits and the overlay that shows them before they are logged. A key starts with its column's id. */
module Commits {
  import opened Keys
  import opened Entries

  datatype Commit = Commit(id: nat, changes: seq<Change>)

  datatype Stamped = Stamped(id: nat, value: Option<Value>)

  type CommitOverlay = map<Key, Stamped>

  function CopyToOverlay(o: CommitOverlay, cs: seq<Change>, id: nat): CommitOverlay {
    if cs == [] then o
    else CopyToOverlay(o, cs[..|cs| - 1], id)[cs[|cs| - 1].key := Stamped(id, cs[|cs| - 1].value)]
  }

  function CleanOverlay(o: CommitOverlay, cs: seq<Change>, id: nat): CommitOverlay {
    if cs == [] then o
    else
      var p, k := CleanOverlay(o, cs[..|cs| - 1], id), cs[|cs| - 1].key;
      if k in p && p[k].id == id then p - {k} else p
  }

  ghost function OverlayOf(q: seq<Commit>): CommitOverlay {
    if q == [] then map[] else CopyToOverlay(OverlayOf(q[..|q| - 1]), q[|q| - 1].changes, q[|q| - 1].id)
  }

  ghost function UpdateQueue(m: map<Key, Value>, q: seq<Commit>): map<Key, Value> {
    if q == [] then m else UpdateAll(UpdateQueue(m, q[..|q| - 1]), q[|q| - 1].changes)
  }

  function Find(m: map<Key, Value>, k: Key): Option<Value> {
    if k in m then Some(m[k]) else None
  }

  /** What a reader finds: the overlay's answer, a deletion included, else what the log and the tables hold. */
  ghost function Through(o: CommitOverlay, m: map<Key, Value>, k: Key): Option<Value> {
    if k in o then o[k].value else Find(m, k)
  }

  lemma {:induction false} CopyShows(o: CommitOverlay, m: map<Key, Value>, u: map<Key, Value>, cs: seq<Change>,
                                     id: nat, k: Key)
    requires Through(o, m, k) == Find(u, k)
    ensures Through(CopyToOverlay(o, cs, id), m, k) == Find(UpdateAll(u, cs), k)
  {
    if cs != [] {
      CopyShows(o, m, u, cs[..|cs| - 1], id, k);
    }
  }

  /** Reading through the overlay of the queued commits gives what applying them all would. */
  lemma {:induction false} ThroughQueue(m: map<Key, Value>, q: seq<Commit>, k: Key)
    ensures Through(OverlayOf(q), m, k) == Find(UpdateQueue(m, q), k)
  {
    if q != [] {
      var n := |q| - 1;
      ThroughQueue(m, q[..n], k);
      CopyShows(OverlayOf(q[..n]), m, UpdateQueue(m, q[..n]), q[n].changes, q[n].id, k);
    }
  }

  lemma {:induction false} UpdateQueueCons(m: map<Key, Value>, c: Commit, rest: seq<Commit>)
    ensures UpdateQueue(m, [c] + rest) == UpdateQueue(UpdateAll(m, c.changes), rest)
  {
    hide UpdateAll;
    var q, n := [c] + rest, |rest|;
    if rest == [] {
      assert q == [c] && q[..0] == [];
    } else {
      UpdateQueueCons(m, c, rest[..n - 1]);
      assert q[..n] == [c] + rest[..n - 1];
    }
  }

  lemma {:induction false} UpdateQueueJoin(m: map<Key, Value>, p: seq<Commit>, q: seq<Commit>)
    ensures UpdateQueue(m, p + q) == UpdateQueue(UpdateQueue(m, p), q)
  {
    hide UpdateAll;
    if q == [] {
      assert p + q == p;
    } else {
      var n := |q| - 1;
      UpdateQueueJoin(m, p, q[..n]);
      assert (p + q)[..|p| + n] == p + q[..n];
    }
  }

  lemma UpdateQueueSnoc(m: map<Key, Value>, q: seq<Commit>, c: Commit)
    ensures UpdateQueue(m, q + [c]) == UpdateAll(UpdateQueue(m, q), c.changes)
  {
    hide UpdateAll;
    assert (q + [c])[..|q|] == q;
  }

  lemma OverlaySnoc(q: seq<Commit>, c: Commit)
    ensures OverlayOf(q + [c]) == CopyToOverlay(OverlayOf(q), c.changes, c.id)
  {
    hide CopyToOverlay;
    assert (q + [c])[..|q|] == q;
  }

  /** Applying the same changes again changes nothing. */
  lemma UpdateTwice(m: map<Key, Value>, cs: seq<Change>)
    ensures UpdateAll(UpdateAll(m, cs), cs) == UpdateAll(m, cs)
  {
    hide UpdateAll;
    var u := UpdateAll(m, cs);
    var v := UpdateAll(u, cs);
    forall k
      ensures Find(v, k) == Find(u, k)
    {
      Decided(m, u, cs, k);
    }
    SameFinds(v, u);
  }

  lemma SameFinds(u: map<Key, Value>, v: map<Key, Value>)
    requires forall k :: Find(u, k) == Find(v, k)
    ensures u == v
  {
    forall k
      ensures k in u <==> k in v
      ensures k in u ==> u[k] == v[k]
    {
      assert Find(u, k) == Find(v, k);
    }
  }

  /** The last change of a key decides; a key without changes keeps what it had. */
  lemma {:induction false} Decided(m: map<Key, Value>, v: map<Key, Value>, cs: seq<Change>, k: Key)
    ensures (exists i :: 0 <= i < |cs| && cs[i].key == k) ==> Find(UpdateAll(v, cs), k) == Find(UpdateAll(m, cs), k)
    ensures (forall i :: 0 <= i < |cs| ==> cs[i].key != k) ==>
      Find(UpdateAll(v, cs), k) == Find(v, k) && Find(UpdateAll(m, cs), k) == Find(m, k)
  {
    if cs != [] {
      var n := |cs| - 1;
      Decided(m, v, cs[..n], k);
      if cs[n].key != k {
        assert forall i :: 0 <= i < n ==> cs[..n][i] == cs[i];
      }
    }
  }

  // Cleaning.

  ghost predicate Touches(cs: seq<Change>, k: Key) {
    exists i :: 0 <= i < |cs| && cs[i].key == k
  }

  lemma {:induction false} CopiedAt(o: CommitOverlay, cs: seq<Change>, id: nat, k: Key)
    ensures Touches(cs, k) ==> k in CopyToOverlay(o, cs, id) && CopyToOverlay(o, cs, id)[k].id == id
    ensures !Touches(cs, k) ==> Same(CopyToOverlay(o, cs, id), o, k)
  {
    if cs != [] {
      var n := |cs| - 1;
      CopiedAt(o, cs[..n], id, k);
      if cs[n].key != k {
        assert Touches(cs, k) <==> Touches(cs[..n], k) by { TouchesShorter(cs, k); }
      } else {
        assert Touches(cs, k);
      }
    }
  }

  lemma TouchesShorter(cs: seq<Change>, k: Key)
    requires cs != [] && cs[|cs| - 1].key != k
    ensures Touches(cs, k) <==> Touches(cs[..|cs| - 1], k)
  {
    var d := cs[..|cs| - 1];
    if Touches(cs, k) {
      var i :| 0 <= i < |cs| && cs[i].key == k;
      assert d[i].key == k;
    }
  }

  ghost predicate Same(o: CommitOverlay, p: CommitOverlay, k: Key) {
    (k in o <==> k in p) && (k in o ==> o[k] == p[k])
  }

  lemma {:induction false} CleanedAt(o: CommitOverlay, cs: seq<Change>, id: nat, k: Key)
    ensures if Touches(cs, k) && k in o && o[k].id == id
      then k !in CleanOverlay(o, cs, id) else Same(CleanOverlay(o, cs, id), o, k)
  {
    if cs != [] {
      var n := |cs| - 1;
      CleanedAt(o, cs[..n], id, k);
      if cs[n].key != k {
        TouchesShorter(cs, k);
      } else {
        assert Touches(cs, k);
      }
    }
  }

  /** Cleaning a commit off the overlay leaves exactly the overlay of the commits queued after it. */
  lemma {:induction false} CleanFirst(c: Commit, rest: seq<Commit>)
    requires forall i :: 0 <= i < |rest| ==> rest[i].id != c.id
    ensures CleanOverlay(OverlayOf([c] + rest), c.changes, c.id) == OverlayOf(rest)
  {
    var q, n := [c] + rest, |rest|;
    var o, p := CleanOverlay(OverlayOf(q), c.changes, c.id), OverlayOf(rest);
    forall k
      ensures Same(o, p, k)
    {
      CleanFirstAt(c, rest, k);
    }
    SameEverywhere(o, p);
  }

  lemma SameEverywhere(o: CommitOverlay, p: CommitOverlay)
    requires forall k :: Same(o, p, k)
    ensures o == p
  {
    forall k
      ensures k in o <==> k in p
      ensures k in o ==> o[k] == p[k]
    {
      assert Same(o, p, k);
    }
  }

  lemma {:induction false} CleanFirstAt(c: Commit, rest: seq<Commit>, k: Key)
    requires forall i :: 0 <= i < |rest| ==> rest[i].id != c.id
    ensures Same(CleanOverlay(OverlayOf([c] + rest), c.changes, c.id), OverlayOf(rest), k)
    ensures k in OverlayOf([c] + rest) && OverlayOf([c] + rest)[k].id == c.id ==> Touches(c.changes, k)
  {
    hide CopyToOverlay, CleanOverlay, Touches;
    var q, n := [c] + rest, |rest|;
    CleanedAt(OverlayOf(q), c.changes, c.id, k);
    if rest == [] {
      assert q[..0] == [];
      CopiedAt(map[], c.changes, c.id, k);
    } else {
      assert q[..n] == [c] + rest[..n - 1];
      CleanFirstAt(c, rest[..n - 1], k);
      CleanedAt(OverlayOf(q[..n]), c.changes, c.id, k);
      var d := rest[n - 1];
      CopiedAt(OverlayOf(q[..n]), d.changes, d.id, k);
      CopiedAt(OverlayOf(rest[..n - 1]), d.changes, d.id, k);
      if Touches(d.changes, k) {
        CopySame(OverlayOf(q[..n]), OverlayOf(rest[..n - 1]), d.changes, d.id, k);
      }
    }
  }

  lemma {:induction false} CopySame(o: CommitOverlay, p: CommitOverlay, cs: seq<Change>, id: nat, k: Key)
    requires Touches(cs, k)
    ensures Same(CopyToOverlay(o, cs, id), CopyToOverlay(p, cs, id), k)
  {
    var n := |cs| - 1;
    if cs[n].key != k {
      TouchesShorter(cs, k);
      CopySame(o, p, cs[..n], id, k);
    }
  }
}
