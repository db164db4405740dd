/** Sets of page entries as bit masks, and the entries they select. */
module Masks {
  import opened Keys
  import opened Words

  /** How many bits are set. */
  function Ones(mask: nat): nat {
    if mask == 0 then 0 else mask % 2 + Ones(mask / 2)
  }

  predicate BitSet(mask: nat, i: nat) {
    if i == 0 then mask % 2 == 1 else BitSet(mask / 2, i - 1)
  }

  function TrailingZeros(mask: nat): (i: nat)
    requires mask > 0
  {
    if mask % 2 == 1 then 0 else 1 + TrailingZeros(mask / 2)
  }

  /** The masked entries of a page, lowest first. */
  function Picks(mask: nat, page: seq<seq<byte>>, i: nat): seq<seq<byte>> {
    if mask == 0 then []
    else (if mask % 2 == 1 && i < |page| then [page[i]] else []) + Picks(mask / 2, page, i + 1)
  }

  lemma {:induction false} LowestBit(mask: nat, i: nat)
    requires mask > 0
    ensures BitSet(mask, TrailingZeros(mask)) && mask >= Pow2(TrailingZeros(mask))
    ensures BitSet(mask - Pow2(TrailingZeros(mask)), i) <==> BitSet(mask, i) && i != TrailingZeros(mask)
  {
    if mask % 2 == 0 {
      LowestBit(mask / 2, if i > 0 then i - 1 else 0);
      assert (mask - Pow2(TrailingZeros(mask))) / 2 == mask / 2 - Pow2(TrailingZeros(mask / 2));
    } else if i > 0 {
      assert (mask - 1) / 2 == mask / 2;
    }
  }

  lemma {:induction false} LowestFits(mask: nat, s: nat)
    requires 0 < mask < Pow2(s)
    ensures TrailingZeros(mask) < s
  {
    if mask % 2 == 0 {
      LowestFits(mask / 2, s - 1);
    }
  }

  lemma {:induction false} PickLowest(mask: nat, page: seq<seq<byte>>, i: nat)
    requires mask > 0 && i + TrailingZeros(mask) < |page| && mask >= Pow2(TrailingZeros(mask))
    ensures Picks(mask, page, i) == [page[i + TrailingZeros(mask)]] + Picks(mask - Pow2(TrailingZeros(mask)), page, i)
  {
    if mask % 2 == 0 {
      LowestBit(mask / 2, 0);
      PickLowest(mask / 2, page, i + 1);
      assert (mask - Pow2(TrailingZeros(mask))) / 2 == mask / 2 - Pow2(TrailingZeros(mask / 2));
    } else {
      assert (mask - 1) / 2 == mask / 2;
    }
  }

  lemma {:induction false} PickCount(mask: nat, page: seq<seq<byte>>, i: nat)
    requires i <= |page| && mask < Pow2(|page| - i)
    ensures |Picks(mask, page, i)| == Ones(mask)
  {
    if mask > 0 {
      PickCount(mask / 2, page, i + 1);
    }
  }

  lemma PicksNone(page: seq<seq<byte>>)
    ensures Picks(0, page, 0) == []
  {
  }

  lemma {:induction false} NoBits(i: nat)
    ensures !BitSet(0, i)
  {
    if i > 0 {
      NoBits(i - 1);
    }
  }

  lemma {:induction false} PickSizes(mask: nat, page: seq<seq<byte>>, i: nat, size: nat)
    requires forall j :: 0 <= j < |page| ==> |page[j]| == size
    ensures forall j :: 0 <= j < |Picks(mask, page, i)| ==> |Picks(mask, page, i)[j]| == size
  {
    if mask > 0 {
      PickSizes(mask / 2, page, i + 1, size);
    }
  }

  lemma {:induction false} OnesStep(mask: nat)
    requires mask > 0 && mask >= Pow2(TrailingZeros(mask))
    ensures Ones(mask) == Ones(mask - Pow2(TrailingZeros(mask))) + 1
  {
    if mask % 2 == 0 {
      LowestBit(mask / 2, 0);
      OnesStep(mask / 2);
      assert (mask - Pow2(TrailingZeros(mask))) / 2 == mask / 2 - Pow2(TrailingZeros(mask / 2));
    } else {
      assert (mask - 1) / 2 == mask / 2;
    }
  }

  lemma NoOnes()
    ensures Ones(0) == 0
  {
  }

  // Putting entries back.

  /** A page with the masked entries replaced by the given ones, lowest first. */
  function Spread(mask: nat, entries: seq<seq<byte>>, page: seq<seq<byte>>, i: nat): (r: seq<seq<byte>>)
    ensures |r| == |page|
  {
    if mask == 0 || entries == [] || i >= |page| then page
    else if mask % 2 == 1 then Spread(mask / 2, entries[1..], page[i := entries[0]], i + 1)
    else Spread(mask / 2, entries, page, i + 1)
  }

  /** Entries that are not masked stay as they are. */
  lemma {:induction false} SpreadKeeps(mask: nat, entries: seq<seq<byte>>, page: seq<seq<byte>>, i: nat, j: nat)
    requires j < |page| && (j < i || !BitSet(mask, j - i))
    ensures Spread(mask, entries, page, i)[j] == page[j]
  {
    if mask == 0 || entries == [] || i >= |page| {
    } else if mask % 2 == 1 {
      SpreadKeeps(mask / 2, entries[1..], page[i := entries[0]], i + 1, j);
    } else {
      SpreadKeeps(mask / 2, entries, page, i + 1, j);
    }
  }

  /** What is picked off the result is what was put there. */
  lemma {:induction false} PicksOfSpread(mask: nat, entries: seq<seq<byte>>, page: seq<seq<byte>>, i: nat)
    requires i <= |page| && mask < Pow2(|page| - i) && |entries| == Ones(mask)
    ensures Picks(mask, Spread(mask, entries, page, i), i) == entries
  {
    if mask > 0 {
      OnesPositive(mask);
      if mask % 2 == 1 {
        var p := page[i := entries[0]];
        PicksOfSpread(mask / 2, entries[1..], p, i + 1);
        SpreadKeeps(mask / 2, entries[1..], p, i + 1, i);
        assert entries == [entries[0]] + entries[1..];
      } else {
        PicksOfSpread(mask / 2, entries, page, i + 1);
      }
    }
  }

  lemma {:induction false} OnesPositive(mask: nat)
    requires mask > 0
    ensures Ones(mask) > 0
  {
    if mask % 2 == 0 {
      OnesPositive(mask / 2);
    }
  }

  /** Entries picked off a page and put into another one end up where they were. */
  lemma {:induction false} SpreadOfPicks(mask: nat, from: seq<seq<byte>>, page: seq<seq<byte>>, i: nat, j: nat)
    requires |from| == |page| && i <= j < |page| && mask < Pow2(|page| - i) && BitSet(mask, j - i)
    ensures Spread(mask, Picks(mask, from, i), page, i)[j] == from[j]
  {
    var e := Picks(mask, from, i);
    if mask == 0 {
      NoBits(j - i);
    } else {
      PickCount(mask, from, i);
      OnesPositive(mask);
      if mask % 2 == 1 {
        assert e[1..] == Picks(mask / 2, from, i + 1) && e[0] == from[i];
        if j == i {
          SpreadKeeps(mask / 2, e[1..], page[i := e[0]], i + 1, i);
        } else {
          SpreadOfPicks(mask / 2, from, page[i := e[0]], i + 1, j);
        }
      } else {
        assert e == [] + Picks(mask / 2, from, i + 1) == Picks(mask / 2, from, i + 1);
        SpreadOfPicks(mask / 2, from, page, i + 1, j);
      }
    }
  }

  /** Bit `i` of a mask is the lowest one once it is shifted right by `i`. */
  lemma {:induction false} BitIs(mask: nat, i: nat)
    ensures BitSet(mask, i) <==> Right(mask, i) % 2 == 1
  {
    if i > 0 {
      BitIs(mask / 2, i - 1);
    }
  }

  /** The entry of a set bit comes after those of the bits set below it. */
  lemma {:induction false} PickAt(mask: nat, page: seq<seq<byte>>, i: nat, j: nat)
    requires BitSet(mask, j) && i + j < |page|
    ensures Ones(Low(mask, j)) < |Picks(mask, page, i)| && Picks(mask, page, i)[Ones(Low(mask, j))] == page[i + j]
  {
    hide Ones, Low;
    NoBits(j);
    if j == 0 {
      assert Low(mask, 0) == 0 && Ones(0) == 0 by { NoneLow(mask); }
    } else {
      PickAt(mask / 2, page, i + 1, j - 1);
      LowStep(mask, j);
    }
  }

  lemma NoneLow(mask: nat)
    ensures Low(mask, 0) == 0 && Ones(0) == 0
  {
  }

  lemma LowStep(mask: nat, j: nat)
    requires j > 0
    ensures Ones(Low(mask, j)) == mask % 2 + Ones(Low(mask / 2, j - 1))
  {
    var l := Low(mask, j);
    assert l % 2 == mask % 2 && l / 2 == Low(mask / 2, j - 1);
  }
}
