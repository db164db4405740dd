/** Bitwise arithmetic of unsigned words, on natural numbers. */
module Words {
  function Pow2(s: nat): (r: nat)
    ensures r > 0
  {
    if s == 0 then 1 else 2 * Pow2(s - 1)
  }

  /** The lowest `s` bits. */
  function Low(p: nat, s: nat): nat {
    if s == 0 then 0 else p % 2 + 2 * Low(p / 2, s - 1)
  }

  /** Shift left without loss, as in a word of any width. */
  function Up(p: nat, s: nat): nat {
    if s == 0 then p else 2 * Up(p, s - 1)
  }

  function Right(p: nat, s: nat): nat {
    if s == 0 then p else Right(p / 2, s - 1)
  }

  /** Shift left in a 64-bit word. */
  function Left(p: nat, s: nat): nat {
    Low(Up(p, s), 64)
  }

  function Or(a: nat, b: nat): nat {
    if a == 0 && b == 0 then 0 else (if a % 2 == 1 || b % 2 == 1 then 1 else 0) + 2 * Or(a / 2, b / 2)
  }

  function And(a: nat, b: nat): nat {
    if a == 0 || b == 0 then 0 else (if a % 2 == 1 && b % 2 == 1 then 1 else 0) + 2 * And(a / 2, b / 2)
  }

  lemma {:induction false} Split(p: nat, s: nat)
    ensures p == Up(Right(p, s), s) + Low(p, s) && Low(p, s) < Pow2(s)
  {
    if s > 0 {
      Split(p / 2, s - 1);
    }
  }

  /** A number below 2^s is its own lowest `s` bits, and nothing above them. */
  lemma {:induction false} LowFits(p: nat, s: nat)
    requires p < Pow2(s)
    ensures Low(p, s) == p && Right(p, s) == 0
  {
    if s > 0 {
      LowFits(p / 2, s - 1);
    }
  }

  lemma {:induction false} LowLow(p: nat, s: nat, t: nat)
    requires t <= s
    ensures Low(Low(p, s), t) == Low(p, t)
  {
    if t > 0 {
      LowLow(p / 2, s - 1, t - 1);
      assert Low(p, s) / 2 == Low(p / 2, s - 1);
    }
  }

  lemma {:induction false} LowUp(p: nat, s: nat, t: nat)
    ensures Low(Up(p, s), s + t) == Up(Low(p, t), s)
  {
    if s > 0 {
      LowUp(p, s - 1, t);
    }
  }

  lemma {:induction false} RightUp(p: nat, s: nat, t: nat)
    ensures Right(Up(p, s), s + t) == Right(p, t)
  {
    if s > 0 {
      RightUp(p, s - 1, t);
    }
  }

  lemma {:induction false} RightFits(p: nat, s: nat, t: nat)
    requires p < Pow2(s + t)
    ensures Right(p, s) < Pow2(t)
  {
    if s > 0 {
      RightFits(p / 2, s - 1, t);
    }
  }

  lemma {:induction false} OrSum(p: nat, q: nat, s: nat)
    requires q < Pow2(s)
    ensures Or(Up(p, s), q) == Up(p, s) + q
  {
    if s > 0 {
      OrSum(p, q / 2, s - 1);
    } else {
      OrNone(p);
    }
  }

  lemma {:induction false} OrNone(p: nat)
    ensures Or(p, 0) == p
  {
    if p != 0 {
      OrNone(p / 2);
    }
  }

  lemma {:induction false} SumParts(p: nat, q: nat, s: nat)
    requires q < Pow2(s)
    ensures Low(Up(p, s) + q, s) == q && Right(Up(p, s) + q, s) == p
  {
    if s > 0 {
      SumParts(p, q / 2, s - 1);
    }
  }

  lemma {:induction false} AndMask(p: nat, s: nat)
    ensures And(p, Pow2(s) - 1) == Low(p, s)
  {
    if s > 0 {
      AndMask(p / 2, s - 1);
      assert (Pow2(s) - 1) / 2 == Pow2(s - 1) - 1;
      if p == 0 {
        LowFits(0, s);
      }
    }
  }

  /** In a 64-bit word, shifting left and back keeps the lowest bits. */
  lemma KeepLow(p: nat, s: nat, t: nat)
    requires s + t <= 64
    ensures Right(Left(p, s), s + t) == Right(Low(p, 64 - s), t)
  {
    LowUp(p, s, 64 - s);
    RightUp(Low(p, 64 - s), s, t);
  }

  /** A left shift that loses nothing. */
  lemma LeftIsUp(p: nat, s: nat)
    requires s <= 64 && p < Pow2(64 - s)
    ensures Left(p, s) == Up(p, s)
  {
    LowUp(p, s, 64 - s);
    LowFits(p, 64 - s);
  }

  lemma {:induction false} RightTwice(p: nat, s: nat, t: nat)
    ensures Right(p, s + t) == Right(Right(p, s), t)
  {
    if s > 0 {
      RightTwice(p / 2, s - 1, t);
    }
  }

  // The same in arithmetic.

  lemma {:induction false} UpIs(p: nat, s: nat)
    ensures Up(p, s) == p * Pow2(s)
  {
    if s > 0 {
      UpIs(p, s - 1);
    }
  }

  lemma DivideIs(p: nat, q: nat, r: nat, m: nat)
    requires p == q * m + r && r < m
    ensures p / m == q && p % m == r
  {
    Above(p / m, q, m);
    Above(q, p / m, m);
  }

  lemma Above(a: nat, b: nat, m: nat)
    ensures a < b ==> a * m + m <= b * m
  {
    assert a < b ==> (b - a - 1) * m >= 0;
  }

  lemma PartsAre(p: nat, s: nat)
    ensures Right(p, s) == p / Pow2(s) && Low(p, s) == p % Pow2(s)
  {
    Split(p, s);
    UpIs(Right(p, s), s);
    DivideIs(p, Right(p, s), Low(p, s), Pow2(s));
  }

  lemma EightBits(p: nat)
    ensures Up(p, 8) == 256 * p && Pow2(8) == 256
  {
    assert Up(p, 2) == 2 * Up(p, 1) == 4 * Up(p, 0) == 4 * p;
    assert Up(p, 4) == 2 * Up(p, 3) == 4 * Up(p, 2) == 16 * p;
    assert Up(p, 8) == 2 * Up(p, 7) == 4 * Up(p, 6) == 8 * Up(p, 5) == 16 * Up(p, 4);
    assert Pow2(4) == 2 * Pow2(3) == 4 * Pow2(2) == 16;
    assert Pow2(8) == 2 * Pow2(7) == 4 * Pow2(6) == 8 * Pow2(5) == 16 * Pow2(4);
  }

  lemma EightMore(s: nat)
    ensures Pow2(s + 8) == 256 * Pow2(s)
  {
    assert Pow2(s + 4) == 2 * Pow2(s + 3) == 4 * Pow2(s + 2) == 8 * Pow2(s + 1) == 16 * Pow2(s);
    assert Pow2(s + 8) == 2 * Pow2(s + 7) == 4 * Pow2(s + 6) == 8 * Pow2(s + 5) == 16 * Pow2(s + 4);
  }

  lemma SixtyFour()
    ensures Pow2(64) == 0x1_0000_0000_0000_0000
  {
    hide Pow2;
    assert Pow2(0) == 1 by { PowNone(); }
    EightMore(0);
    EightMore(8);
    EightMore(16);
    EightMore(24);
    EightMore(32);
    EightMore(40);
    EightMore(48);
    EightMore(56);
  }

  lemma PowNone()
    ensures Pow2(0) == 1
  {
  }
}
