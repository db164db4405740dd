/** Who holds each slot of a value table: a live chain, at some position, or the free list. */
module Allocation {
  import opened Keys

  datatype Place = Spare(at: nat) | Used(head: nat, at: nat)

  /**
   * `chains` maps each live head slot to the slots of its value in order; `free` is the free list with its top last;
   * `place` is their inverse, so that no slot is held twice.
   */
  datatype Alloc = Alloc(filled: nat, free: seq<nat>, chains: map<nat, seq<nat>>, place: map<nat, Place>)

  ghost predicate InPlace(a: Alloc, s: nat) {
    s in a.place &&
    match a.place[s]
    case Spare(i) => i < |a.free| && a.free[i] == s
    case Used(h, i) => h in a.chains && i < |a.chains[h]| && a.chains[h][i] == s
  }

  ghost predicate FreeAt(a: Alloc, i: nat)
    requires i < |a.free|
  {
    a.free[i] in a.place && a.place[a.free[i]] == Spare(i)
  }

  ghost predicate UsedAt(a: Alloc, h: nat, i: nat)
    requires h in a.chains && i < |a.chains[h]|
  {
    a.chains[h][i] in a.place && a.place[a.chains[h][i]] == Used(h, i)
  }

  /** Slots `1..filled` are split between the live chains and the free list, without overlap or repetition. */
  ghost predicate Sound(a: Alloc) {
    && a.filled >= 1
    && (forall s :: s in a.place <==> 1 <= s < a.filled)
    && (forall s :: s in a.place ==> InPlace(a, s))
    && (forall i :: 0 <= i < |a.free| ==> FreeAt(a, i))
    && (forall h, i :: h in a.chains && 0 <= i < |a.chains[h]| ==> UsedAt(a, h, i))
    && (forall h :: h in a.chains ==> a.chains[h] != [] && a.chains[h][0] == h)
  }

  ghost function Empty(): Alloc {
    Alloc(1, [], map[], map[])
  }

  /** The slot the allocator hands out next: the top of the free list, else a slot never used before. */
  ghost function Spot(a: Alloc): nat {
    if a.free == [] then a.filled else a.free[|a.free| - 1]
  }

  ghost function Shrunk(a: Alloc): Alloc {
    if a.free == [] then a.(filled := a.filled + 1) else a.(free := a.free[..|a.free| - 1])
  }

  /** The next slot becomes a chain of its own. */
  ghost function Begun(a: Alloc): Alloc {
    var s := Spot(a);
    Shrunk(a).(chains := a.chains[s := [s]], place := a.place[s := Used(s, 0)])
  }

  /** The next slot is added at the end of chain `h`. */
  ghost function Extended(a: Alloc, h: nat): Alloc
    requires h in a.chains
  {
    var s := Spot(a);
    Shrunk(a).(chains := a.chains[h := a.chains[h] + [s]], place := a.place[s := Used(h, |a.chains[h]|)])
  }

  /** Chain `h` is cut at `k`: its tail becomes a chain of its own. */
  ghost function Cut(a: Alloc, h: nat, k: nat): Alloc
    requires h in a.chains && 0 < k < |a.chains[h]|
  {
    var c := a.chains[h];
    a.(chains := a.chains[h := c[..k]][c[k] := c[k..]],
       place := map s | s in a.place :: match a.place[s]
         case Used(g, i) => if g == h && i >= k then Used(c[k], i - k) else a.place[s]
         case Spare(_) => a.place[s])
  }

  /** The only slot of chain `h` goes on top of the free list. */
  ghost function Freed(a: Alloc, h: nat): Alloc {
    a.(chains := a.chains - {h}, free := a.free + [h], place := a.place[h := Spare(|a.free|)])
  }

  lemma SpotIsNotUsed(a: Alloc)
    requires Sound(a)
    ensures Spot(a) >= 1 && Spot(a) !in a.chains
    ensures forall h, i :: h in a.chains && 0 <= i < |a.chains[h]| ==> a.chains[h][i] != Spot(a)
  {
    var s := Spot(a);
    if a.free != [] {
      assert FreeAt(a, |a.free| - 1);
    }
    forall h, i | h in a.chains && 0 <= i < |a.chains[h]|
      ensures a.chains[h][i] != s
    {
      assert UsedAt(a, h, i);
    }
  }

  /** The slot freed last is used first; without a free one the table grows by the next slot. */
  lemma LastFreedFirst(a: Alloc, h: nat)
    requires Sound(a)
    ensures h in a.chains && |a.chains[h]| == 1 ==> Spot(Freed(a, h)) == h
    ensures a.free == [] ==> Spot(a) == a.filled && Begun(a).filled == a.filled + 1
    ensures a.free != [] ==> Begun(a).filled == a.filled && Begun(a).free == a.free[..|a.free| - 1]
  {
  }

  lemma BegunSound(a: Alloc)
    requires Sound(a)
    ensures Sound(Begun(a))
  {
    var s, b := Spot(a), Begun(a);
    SpotIsNotUsed(a);
    if a.free != [] {
      assert FreeAt(a, |a.free| - 1);
    }
    forall i | 0 <= i < |b.free|
      ensures FreeAt(b, i)
    {
      assert FreeAt(a, i);
    }
    forall h, i | h in b.chains && 0 <= i < |b.chains[h]|
      ensures UsedAt(b, h, i)
    {
      assert h != s ==> UsedAt(a, h, i);
    }
    forall t | t in b.place
      ensures InPlace(b, t)
    {
      assert t != s ==> InPlace(a, t);
    }
  }

  lemma ExtendedSound(a: Alloc, h: nat)
    requires Sound(a) && h in a.chains
    ensures Sound(Extended(a, h))
  {
    var s, b := Spot(a), Extended(a, h);
    SpotIsNotUsed(a);
    if a.free != [] {
      assert FreeAt(a, |a.free| - 1);
    }
    forall i | 0 <= i < |b.free|
      ensures FreeAt(b, i)
    {
      assert FreeAt(a, i);
    }
    forall g, i | g in b.chains && 0 <= i < |b.chains[g]|
      ensures UsedAt(b, g, i)
    {
      if g != h || i < |a.chains[h]| {
        assert UsedAt(a, g, i);
      }
    }
    forall t | t in b.place
      ensures InPlace(b, t)
    {
      assert t != s ==> InPlace(a, t);
    }
  }

  lemma CutSound(a: Alloc, h: nat, k: nat)
    requires Sound(a) && h in a.chains && 0 < k < |a.chains[h]|
    ensures Sound(Cut(a, h, k)) && a.chains[h][k] !in a.chains
  {
    var c, b := a.chains[h], Cut(a, h, k);
    assert UsedAt(a, h, k) && UsedAt(a, h, 0);
    assert forall g :: g in a.chains ==> UsedAt(a, g, 0);
    forall i | 0 <= i < |b.free|
      ensures FreeAt(b, i)
    {
      assert FreeAt(a, i);
    }
    forall g, i | g in b.chains && 0 <= i < |b.chains[g]|
      ensures UsedAt(b, g, i)
    {
      if g == c[k] {
        assert UsedAt(a, h, k + i);
      } else {
        assert UsedAt(a, g, i);
      }
    }
    forall t | t in b.place
      ensures InPlace(b, t)
    {
      assert InPlace(a, t);
    }
  }

  lemma FreedSound(a: Alloc, h: nat)
    requires Sound(a) && h in a.chains && |a.chains[h]| == 1
    ensures Sound(Freed(a, h))
  {
    var b := Freed(a, h);
    assert UsedAt(a, h, 0);
    forall i | 0 <= i < |b.free|
      ensures FreeAt(b, i)
    {
      assert i < |a.free| ==> FreeAt(a, i);
    }
    forall g, i | g in b.chains && 0 <= i < |b.chains[g]|
      ensures UsedAt(b, g, i)
    {
      assert UsedAt(a, g, i);
    }
    forall t | t in b.place
      ensures InPlace(b, t)
    {
      assert InPlace(a, t);
    }
  }

  /** No slot is in two chains, twice in one chain, or both in a chain and free. */
  lemma Disjoint(a: Alloc, h: nat, i: nat, g: nat, j: nat)
    requires Sound(a) && h in a.chains && i < |a.chains[h]|
    ensures g in a.chains && j < |a.chains[g]| && a.chains[h][i] == a.chains[g][j] ==> h == g && i == j
    ensures j < |a.free| ==> a.chains[h][i] != a.free[j]
  {
    assert UsedAt(a, h, i);
    if g in a.chains && j < |a.chains[g]| {
      assert UsedAt(a, g, j);
    }
    if j < |a.free| {
      assert FreeAt(a, j);
    }
  }

  // Counting.

  ghost function Live(a: Alloc): set<nat> {
    set s | s in a.place && a.place[s].Used?
  }

  lemma {:induction false} RangeSize(r: set<nat>, n: nat)
    requires forall s :: s in r <==> 1 <= s <= n
    ensures |r| == n
  {
    if n == 0 {
      assert r == {};
    } else {
      RangeSize(r - {n}, n - 1);
    }
  }

  ghost function Elements(s: seq<nat>): set<nat> {
    set x | x in s
  }

  lemma {:induction false} DistinctSize(s: seq<nat>)
    requires forall i, j :: 0 <= i < j < |s| ==> s[i] != s[j]
    ensures |Elements(s)| == |s|
  {
    if s == [] {
      assert Elements(s) == {};
    } else {
      var t := s[..|s| - 1];
      DistinctSize(t);
      assert Elements(s) == Elements(t) + {s[|s| - 1]};
    }
  }

  lemma FreeSize(a: Alloc)
    requires Sound(a)
    ensures |Elements(a.free)| == |a.free|
    ensures forall s :: s in Elements(a.free) <==> s in a.place && a.place[s].Spare?
  {
    forall i, j | 0 <= i < j < |a.free|
      ensures a.free[i] != a.free[j]
    {
      assert FreeAt(a, i) && FreeAt(a, j);
    }
    DistinctSize(a.free);
    forall s
      ensures s in Elements(a.free) <==> s in a.place && a.place[s].Spare?
    {
      if s in a.free {
        var i :| 0 <= i < |a.free| && a.free[i] == s;
        assert FreeAt(a, i);
      }
      if s in a.place {
        assert InPlace(a, s);
      }
    }
  }

  /** Live and free slots together are exactly the `filled - 1` slots after the header. */
  lemma Conservation(a: Alloc)
    requires Sound(a)
    ensures |Live(a)| + |a.free| == a.filled - 1
  {
    hide InPlace, FreeAt, UsedAt;
    FreeSize(a);
    RangeSize(a.place.Keys, a.filled - 1);
    assert a.place.Keys == Live(a) + Elements(a.free);
  }

  /** A slot is live exactly when some chain contains it. */
  lemma LiveIsChained(a: Alloc, s: nat)
    requires Sound(a)
    ensures s in Live(a) <==> exists h :: h in a.chains && s in a.chains[h]
  {
    if s in Live(a) {
      assert InPlace(a, s);
    }
    if h :| h in a.chains && s in a.chains[h] {
      var i :| 0 <= i < |a.chains[h]| && a.chains[h][i] == s;
      assert UsedAt(a, h, i);
    }
  }
}
