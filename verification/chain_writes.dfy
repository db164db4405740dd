/** Writing a value along a chain, one slot at a time. */
module ChainWrites {
  import opened Keys
  import opened Bytes
  import opened Slots
  import opened Allocation
  import opened Chains

  /**
   * The first `k` slots of chain `h` hold the first `done` bytes of the payload and are linked on; every other chain
   * is as it was in `a0`, `v0`.
   */
  ghost predicate Progress(a0: Alloc, v0: View, a: Alloc, v: View, h: nat, k: nat, to: Record, done: nat) {
    && LaidBut(a, v, h) && Kept(a0, v0, a, v, h) && h in a.chains
    && a.chains.Keys == a0.chains.Keys + {h}
    && k <= |a.chains[h]| && done <= |to.payload|
    && (forall i :: 0 <= i < k ==> WrittenAt(v, a.chains[h], i))
    && Join(v, a.chains[h][..k]) == to.payload[..done]
    && (k > 0 ==> h in v && v[h].IsCompressed() == to.compressed)
  }

  ghost predicate WrittenAt(v: View, chain: seq<nat>, i: nat)
    requires i < |chain|
  {
    && chain[i] in v && v[chain[i]].Part? && i + 1 < |chain| && v[chain[i]].next == chain[i + 1]
    && (v[chain[i]].mark == Middle <==> i > 0)
  }

  /** The first part of an entry is marked as its head, and the others that are linked on as its middle. */
  ghost predicate Marked(v: View, chain: seq<nat>) {
    forall i :: 0 <= i < |chain| - 1 ==> WrittenAt(v, chain, i)
  }

  /** The two views agree on all slots but those of the chain. */
  ghost predicate SameOutside(v: View, w: View, chain: seq<nat>) {
    forall s :: s !in chain ==> (s in v <==> s in w) && (s in v ==> v[s] == w[s])
  }

  lemma MarkedOutside(v: View, w: View, chain: seq<nat>, other: seq<nat>)
    requires Marked(v, chain) && SameOutside(v, w, other) && forall s :: s in chain ==> s !in other
    ensures Marked(w, chain)
  {
    forall i | 0 <= i < |chain| - 1
      ensures WrittenAt(w, chain, i)
    {
      assert WrittenAt(v, chain, i) && chain[i] in chain;
    }
  }

  /** The slots still to be written: the rest of the old chain, or one slot just allocated. */
  ghost predicate Ahead(v: View, chain: seq<nat>, k: nat, follow: bool) {
    && k < |chain|
    && (if follow then Linked(v, chain[k..]) else |chain| == k + 1)
  }

  function MarkFor(first: bool, compressed: bool): Mark {
    if !first then Middle else if compressed then HeadCompressed else Head
  }

  lemma {:induction false} JoinWrite(v: View, chain: seq<nat>, k: nat, x: Slot)
    requires k < |chain| && (forall i :: 0 <= i < k ==> chain[i] != chain[k])
    ensures Join(v[chain[k] := x], chain[..k + 1]) == Join(v, chain[..k]) + x.Body()
  {
    var w := v[chain[k] := x];
    assert chain[..k + 1][..k] == chain[..k];
    JoinAgree(v, w, chain[..k]);
  }

  /** One slot of chain `h` is written with the next bytes of the payload. */
  lemma WriteStep(a0: Alloc, v0: View, a: Alloc, v: View, h: nat, k: nat, to: Record, done: nat, x: Slot)
    requires Progress(a0, v0, a, v, h, k, to, done) && k < |a.chains[h]|
    requires done + |x.Body()| <= |to.payload| && x.Body() == to.payload[done..done + |x.Body()|]
    requires k == 0 ==> x.IsCompressed() == to.compressed
    ensures var w := v[a.chains[h][k] := x];
      && LaidBut(a, w, h) && Kept(a0, v0, a, w, h)
      && (forall i :: 0 <= i < k ==> WrittenAt(w, a.chains[h], i))
      && Join(w, a.chains[h][..k + 1]) == to.payload[..done + |x.Body()|]
      && h in w && w[h].IsCompressed() == to.compressed
      && (forall i :: 0 <= i < |a.chains[h]| && i != k ==> a.chains[h][i] != a.chains[h][k])
  {
    hide Linked, LaidBut, Kept, Sound, Agree;
    var w := v[a.chains[h][k] := x];
    WriteLaid(a, v, h, k, x);
    KeptTwice(a0, v0, a, v, a, w, h);
    ChainDistinct(a, h, k) by { assert LaidBut(a, v, h); SoundOf(a, v, h); }
    JoinWrite(v, a.chains[h], k, x);
    assert to.payload[..done] + x.Body() == to.payload[..done + |x.Body()|];
    forall i | 0 <= i < k
      ensures WrittenAt(w, a.chains[h], i)
    {
      assert WrittenAt(v, a.chains[h], i);
    }
  }

  lemma SoundOf(a: Alloc, v: View, h: nat)
    requires LaidBut(a, v, h)
    ensures Sound(a)
  {
  }

  lemma ChainDistinct(a: Alloc, h: nat, k: nat)
    requires Sound(a) && h in a.chains && k < |a.chains[h]|
    ensures a.chains[h][0] == h && forall i :: 0 <= i < |a.chains[h]| && i != k ==> a.chains[h][i] != a.chains[h][k]
  {
    forall i | 0 <= i < |a.chains[h]| && i != k
      ensures a.chains[h][i] != a.chains[h][k]
    {
      Disjoint(a, h, k, h, i);
    }
  }

  lemma TailLinked(v: View, c: seq<nat>, k: nat, x: Slot)
    requires k + 1 < |c| && Linked(v, c[k..]) && (forall i :: 0 <= i < |c| && i != k ==> c[i] != c[k])
    ensures Linked(v[c[k] := x], c[k + 1..])
  {
    var w, d := v[c[k] := x], c[k + 1..];
    forall i | 0 <= i < |d|
      ensures LinkedAt(w, d, i)
    {
      assert LinkedAt(v, c[k..], i + 1);
      assert c[k..][i + 1] == c[k + 1 + i] == d[i];
    }
  }

  /** A full slot is written, linked to the next one of the chain. */
  lemma PartStep(a0: Alloc, v0: View, a: Alloc, v: View, h: nat, k: nat, to: Record, done: nat, x: Slot, follow: bool)
    requires Progress(a0, v0, a, v, h, k, to, done) && k + 1 < |a.chains[h]|
    requires if follow then Linked(v, a.chains[h][k..]) else |a.chains[h]| == k + 2
    requires x.Part? && x.next == a.chains[h][k + 1] && x.mark == MarkFor(k == 0, to.compressed)
    requires done + |x.part| <= |to.payload| && x.part == to.payload[done..done + |x.part|]
    ensures var w := v[a.chains[h][k] := x];
      Progress(a0, v0, a, w, h, k + 1, to, done + |x.part|) && Ahead(w, a.chains[h], k + 1, follow)
  {
    hide LaidBut, Kept, Sound, Agree, Join;
    var c, w := a.chains[h], v[a.chains[h][k] := x];
    WriteStep(a0, v0, a, v, h, k, to, done, x);
    if follow {
      TailLinked(v, c, k, x);
    }
  }

  /** The last slot is written and the chain ends there. */
  lemma LastStep(a0: Alloc, v0: View, a: Alloc, v: View, h: nat, k: nat, to: Record, done: nat, x: Slot)
    requires Progress(a0, v0, a, v, h, k, to, done) && k < |a.chains[h]|
    requires |a.chains[h]| > k + 1 ==> Linked(v, a.chains[h][k..])
    requires x.Last? && x.compressed == to.compressed && x.last == to.payload[done..]
    ensures var b, w := if |a.chains[h]| > k + 1 then Cut(a, h, k + 1) else a, v[a.chains[h][k] := x];
      && Laid(b, w) && Kept(a0, v0, b, w, h) && h in b.chains && RecordOf(w, b.chains[h]) == to
      && b.chains[h] == a.chains[h][..k + 1]
      && (|a.chains[h]| > k + 1 ==> b.chains.Keys == a.chains.Keys + {a.chains[h][k + 1]} &&
                                    a.chains[h][k + 1] !in a.chains)
      && b.free == a.free && b.filled == a.filled && Marked(w, b.chains[h])
  {
    hide LaidBut, Kept, Sound, Agree, Join;
    var c, w := a.chains[h], v[a.chains[h][k] := x];
    WriteStep(a0, v0, a, v, h, k, to, done, x);
    assert to.payload[..|to.payload|] == to.payload;
    var d := c[..k + 1];
    forall i | 0 <= i < |d| - 1
      ensures WrittenAt(w, d, i)
    {
      assert WrittenAt(w, c, i);
    }
    forall i | 0 <= i < |d|
      ensures LinkedAt(w, d, i)
    {
      assert i < k ==> WrittenAt(w, c, i);
    }
    HeadOf(a, w, h);
    if |c| > k + 1 {
      TailLinked(v, c, k, x);
      CutLaid(a, w, h, k + 1);
      KeptTwice(a0, v0, a, w, Cut(a, h, k + 1), w, h);
      Whole(Cut(a, h, k + 1), w, h);
    } else {
      assert c[..k + 1] == c;
      Whole(a, w, h);
    }
  }

  lemma HeadOf(a: Alloc, v: View, h: nat)
    requires LaidBut(a, v, h) && h in a.chains
    ensures a.chains[h] != [] && a.chains[h][0] == h && h != 0
  {
    assert UsedAt(a, h, 0);
  }

  lemma Whole(a: Alloc, v: View, h: nat)
    requires LaidBut(a, v, h) && (h in a.chains ==> Linked(v, a.chains[h]))
    ensures Laid(a, v)
  {
  }

  // Starting, allocating and ending.

  lemma StartOld(a: Alloc, v: View, h: nat, to: Record)
    requires Laid(a, v) && h in a.chains
    ensures Progress(a, v, a, v, h, 0, to, 0) && a.chains[h] != [] && a.chains[h][0] == h
    ensures Ahead(v, a.chains[h], 0, true)
  {
    hide Sound, FreeLinked, Linked;
    ZeroIsNoHead(a);
    HeadOf(a, v, h);
    assert a.chains[h][0..] == a.chains[h];
  }

  lemma StartNew(a: Alloc, v: View, to: Record)
    requires Laid(a, v)
    ensures var b, s := Begun(a), Spot(a);
      && Progress(a, v, b, v, s, 0, to, 0) && s in b.chains && b.chains[s] == [s] && s !in a.chains
      && Ahead(v, b.chains[s], 0, false)
  {
    hide Sound, FreeLinked, Linked;
    BegunLaid(a, v);
  }

  lemma ExtendStep(a0: Alloc, v0: View, a: Alloc, v: View, h: nat, k: nat, to: Record, done: nat)
    requires Progress(a0, v0, a, v, h, k, to, done)
    ensures LaidBut(a, v, h) && h in a.chains
    ensures Progress(a0, v0, Extended(a, h), v, h, k, to, done) && Extended(a, h).chains[h] == a.chains[h] + [Spot(a)]
  {
    hide LaidBut, Kept, Sound, Join;
    ExtendedLaid(a, v, h);
    KeptTwice(a0, v0, a, v, Extended(a, h), v, h);
    assert (a.chains[h] + [Spot(a)])[..k] == a.chains[h][..k];
    forall i | 0 <= i < k
      ensures WrittenAt(v, a.chains[h] + [Spot(a)], i)
    {
      assert WrittenAt(v, a.chains[h], i);
    }
  }

  /** The slots of a chain are below `filled` and none of them is 0. */
  lemma ChainBounds(a0: Alloc, v0: View, a: Alloc, v: View, h: nat, k: nat, to: Record, done: nat)
    requires Progress(a0, v0, a, v, h, k, to, done)
    ensures h in a.chains && h != 0 && a.chains.Keys == a0.chains.Keys + {h} && a.chains[h] != [] && a.chains[h][0] == h
    ensures forall i :: 0 <= i < |a.chains[h]| ==> 0 < a.chains[h][i] < a.filled
  {
    HeadOf(a, v, h);
    forall i | 0 <= i < |a.chains[h]|
      ensures 0 < a.chains[h][i] < a.filled
    {
      assert UsedAt(a, h, i);
    }
  }

  /** The next slot to write links to a slot after it exactly when the old chain goes on. */
  lemma AheadHead(v: View, chain: seq<nat>, k: nat)
    requires Ahead(v, chain, k, true)
    ensures k < |chain| && chain[k] in v
    ensures v[chain[k]].Part? <==> |chain| > k + 1
    ensures v[chain[k]].Part? ==> v[chain[k]].next == chain[k + 1]
  {
    assert LinkedAt(v, chain[k..], 0);
  }

  /** How the chain at `h` and the free list have changed so far. */
  ghost predicate Grown(a0: Alloc, a: Alloc, h: nat, follow: bool) {
    h in a0.chains && h in a.chains &&
    (if follow then a.chains[h] == a0.chains[h] else a0.chains[h] <= a.chains[h]) &&
    (a.chains[h] == a0.chains[h] ==> a.free == a0.free && a.filled == a0.filled)
  }

  /** A chain is reused from its head: what it lacks is added at its end, what it has too much is freed in order. */
  ghost predicate Rewritten(a0: Alloc, a: Alloc, h: nat) {
    h in a0.chains && h in a.chains &&
    var c, d := a0.chains[h], a.chains[h];
    if |d| <= |c| then d == c[..|d|] && a.free == a0.free + c[|d|..] && a.filled == a0.filled else c == d[..|c|]
  }

  /** What the table holds once the chain is written and its old tail, if any, is off. */
  lemma Finished(a0: Alloc, v0: View, b: Alloc, w: View, h: nat, rest: set<nat>)
    requires Kept(a0, v0, b, w, h) && h in b.chains && b.chains.Keys == a0.chains.Keys + {h} + rest
    requires rest !! a0.chains.Keys + {h}
    ensures ContentsOf(b, w) - rest == ContentsOf(a0, v0)[h := RecordOf(w, b.chains[h])]
  {
    hide RecordOf, Agree;
    forall g | g in a0.chains && g != h
      ensures g in b.chains && RecordOf(w, b.chains[g]) == RecordOf(v0, a0.chains[g])
    {
      RecordAgree(v0, w, a0.chains[g]);
    }
  }
}
