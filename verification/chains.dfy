/** Slot contents laid out along chains and the free list. */
module Chains {
  import opened Keys
  import opened Bytes
  import opened Slots
  import opened Allocation

  type View = map<nat, Slot>

  /** A stored value with what precedes it (count and partial key), and whether it is compressed. */
  datatype Record = Record(compressed: bool, payload: seq<byte>)

  /** Every part links to the next; only the last slot is a last part. */
  ghost predicate Linked(v: View, chain: seq<nat>) {
    forall i :: 0 <= i < |chain| ==> LinkedAt(v, chain, i)
  }

  ghost predicate LinkedAt(v: View, chain: seq<nat>, i: nat)
    requires i < |chain|
  {
    && chain[i] in v
    && (if i + 1 < |chain| then v[chain[i]].Part? && v[chain[i]].next == chain[i + 1] else v[chain[i]].Last?)
  }

  /** The top of a free list; 0 when it is empty. */
  ghost function Top(free: seq<nat>): nat {
    if free == [] then 0 else free[|free| - 1]
  }

  ghost predicate FreeLinked(v: View, free: seq<nat>) {
    forall i :: 0 <= i < |free| ==> free[i] in v && v[free[i]] == Free(Top(free[..i]))
  }

  /** Chains and the free list are linked as the allocation says, except perhaps chain `h`. */
  ghost predicate LaidBut(a: Alloc, v: View, h: nat) {
    && Sound(a)
    && FreeLinked(v, a.free)
    && (forall g :: g in a.chains && g != h ==> Linked(v, a.chains[g]))
  }

  /** No chain is headed by slot 0, which is the table's header, so nothing is left out here. */
  ghost predicate Laid(a: Alloc, v: View) {
    LaidBut(a, v, 0)
  }

  ghost function Join(v: View, chain: seq<nat>): seq<byte> {
    if chain == [] then []
    else
      var last := chain[|chain| - 1];
      Join(v, chain[..|chain| - 1]) + (if last in v then v[last].Body() else [])
  }

  ghost function RecordOf(v: View, chain: seq<nat>): Record {
    Record(chain != [] && chain[0] in v && v[chain[0]].IsCompressed(), Join(v, chain))
  }

  /** What a table holds: a record for every head slot. */
  ghost function ContentsOf(a: Alloc, v: View): map<nat, Record> {
    map h | h in a.chains :: RecordOf(v, a.chains[h])
  }

  ghost predicate Agree(v: View, w: View, chain: seq<nat>) {
    forall s :: s in chain ==> (s in v <==> s in w) && (s in v ==> v[s] == w[s])
  }

  /** Every chain but `h` is still there, with the same slots and the same contents. */
  ghost predicate Kept(a: Alloc, v: View, b: Alloc, w: View, h: nat) {
    forall g :: g in a.chains && g != h ==> g in b.chains && b.chains[g] == a.chains[g] && Agree(v, w, a.chains[g])
  }

  lemma {:induction false} JoinAgree(v: View, w: View, chain: seq<nat>)
    requires Agree(v, w, chain)
    ensures Join(v, chain) == Join(w, chain)
  {
    if chain != [] {
      JoinAgree(v, w, chain[..|chain| - 1]);
    }
  }

  lemma LinkedAgree(v: View, w: View, chain: seq<nat>)
    requires Agree(v, w, chain) && Linked(v, chain)
    ensures Linked(w, chain)
  {
    forall i | 0 <= i < |chain|
      ensures LinkedAt(w, chain, i)
    {
      assert LinkedAt(v, chain, i);
      assert chain[i] in chain;
    }
  }

  lemma KeptTwice(a: Alloc, v: View, b: Alloc, w: View, c: Alloc, x: View, h: nat)
    requires Kept(a, v, b, w, h) && Kept(b, w, c, x, h)
    ensures Kept(a, v, c, x, h)
  {
  }

  /** Contents after an operation that only touched chain `h`. */
  lemma KeptContents(a: Alloc, v: View, b: Alloc, w: View, h: nat)
    requires Kept(a, v, b, w, h)
    requires b.chains.Keys == a.chains.Keys + {h} || (b.chains.Keys == a.chains.Keys - {h} && h in a.chains)
    ensures h in b.chains ==> ContentsOf(b, w) == ContentsOf(a, v)[h := RecordOf(w, b.chains[h])]
    ensures h !in b.chains ==> ContentsOf(b, w) == ContentsOf(a, v) - {h}
  {
    hide RecordOf, Agree;
    forall g | g in a.chains && g != h
      ensures g in b.chains && RecordOf(w, b.chains[g]) == RecordOf(v, a.chains[g])
    {
      RecordAgree(v, w, a.chains[g]);
    }
  }

  lemma RecordAgree(v: View, w: View, chain: seq<nat>)
    requires Agree(v, w, chain)
    ensures RecordOf(v, chain) == RecordOf(w, chain)
  {
    JoinAgree(v, w, chain);
  }

  // Single steps.

  lemma SpotIsTop(a: Alloc, v: View)
    requires Sound(a) && FreeLinked(v, a.free)
    ensures (a.free == []) == (Top(a.free) == 0)
    ensures a.free != [] ==> Spot(a) == Top(a.free) && Spot(a) in v && v[Spot(a)] == Free(Top(Shrunk(a).free))
    ensures FreeLinked(v, Shrunk(a).free)
  {
    if a.free != [] {
      assert FreeAt(a, |a.free| - 1);
      var f := a.free[..|a.free| - 1];
      forall i | 0 <= i < |f|
        ensures f[i] in v && v[f[i]] == Free(Top(f[..i]))
      {
        assert f[..i] == a.free[..i];
      }
    }
  }

  lemma BegunLaid(a: Alloc, v: View)
    requires Laid(a, v)
    ensures LaidBut(Begun(a), v, Spot(a)) && Kept(a, v, Begun(a), v, Spot(a)) && Spot(a) !in a.chains && Spot(a) >= 1
    ensures Begun(a).chains.Keys == a.chains.Keys + {Spot(a)}
  {
    hide InPlace, FreeAt, UsedAt, Linked;
    assert 0 !in a.chains by { ZeroIsNoHead(a); }
    SpotIsNotUsed(a);
    BegunSound(a);
    SpotIsTop(a, v);
  }

  lemma ZeroIsNoHead(a: Alloc)
    requires Sound(a)
    ensures 0 !in a.chains
  {
    assert forall h :: h in a.chains ==> UsedAt(a, h, 0);
  }

  lemma ExtendedLaid(a: Alloc, v: View, h: nat)
    requires LaidBut(a, v, h) && h in a.chains
    ensures LaidBut(Extended(a, h), v, h) && Kept(a, v, Extended(a, h), v, h)
    ensures Extended(a, h).chains.Keys == a.chains.Keys
  {
    hide InPlace, FreeAt, UsedAt, Linked;
    ExtendedSound(a, h);
    SpotIsTop(a, v);
  }

  /** Writing a slot of chain `h` touches no other chain and not the free list. */
  lemma WriteLaid(a: Alloc, v: View, h: nat, k: nat, x: Slot)
    requires LaidBut(a, v, h) && h in a.chains && k < |a.chains[h]|
    ensures var w := v[a.chains[h][k] := x]; LaidBut(a, w, h) && Kept(a, v, a, w, h)
  {
    var s := a.chains[h][k];
    var w := v[s := x];
    assert UsedAt(a, h, k);
    forall i | 0 <= i < |a.free|
      ensures a.free[i] in w && w[a.free[i]] == Free(Top(a.free[..i]))
    {
      assert FreeAt(a, i);
    }
    forall g | g in a.chains && g != h
      ensures Linked(w, a.chains[g]) && Agree(v, w, a.chains[g])
    {
      ChainsApart(a, g, h, k);
      LinkedAgree(v, w, a.chains[g]);
    }
  }

  lemma ChainsApart(a: Alloc, g: nat, h: nat, k: nat)
    requires Sound(a) && g in a.chains && h in a.chains && g != h && k < |a.chains[h]|
    ensures a.chains[h][k] !in a.chains[g]
  {
    forall i | 0 <= i < |a.chains[g]|
      ensures a.chains[g][i] != a.chains[h][k]
    {
      Disjoint(a, h, k, g, i);
    }
  }

  /** Cutting leaves the tail a whole chain where it was linked to its end. */
  lemma CutLaid(a: Alloc, v: View, h: nat, k: nat)
    requires LaidBut(a, v, h) && h in a.chains && 0 < k < |a.chains[h]| && Linked(v, a.chains[h][k..])
    ensures LaidBut(Cut(a, h, k), v, h)
    ensures var b := Cut(a, h, k);
      b.chains.Keys == a.chains.Keys + {a.chains[h][k]} && a.chains[h][k] !in a.chains && a.chains[h][k] != h
      && Kept(a, v, b, v, h) && b.chains[h] == a.chains[h][..k] && b.chains[a.chains[h][k]] == a.chains[h][k..]
      && b.free == a.free && b.filled == a.filled
  {
    hide InPlace, FreeAt, UsedAt, Linked, Sound;
    CutSound(a, h, k);
  }

  lemma FreedLaid(a: Alloc, v: View, h: nat)
    requires LaidBut(a, v, h) && h in a.chains && |a.chains[h]| == 1
    ensures Laid(Freed(a, h), v[h := Free(Top(a.free))]) && Kept(a, v, Freed(a, h), v[h := Free(Top(a.free))], h)
  {
    hide InPlace, FreeAt, UsedAt, Linked;
    var x := Free(Top(a.free));
    var w := v[h := x];
    FreedSound(a, h);
    WriteLaid(a, v, h, 0, x);
    var f := a.free + [h];
    forall i | 0 <= i < |f|
      ensures f[i] in w && w[f[i]] == Free(Top(f[..i]))
    {
      assert f[..i] == a.free[..i];
      assert a.free[..|a.free|] == a.free;
    }
  }
}
