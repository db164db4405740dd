/** Reference counts over whole runs of increments and decrements. */
module Counts {
  import opened Keys
  import opened Bytes
  import opened Chains
  import opened ValueTables

  /** The mathematical count: every increment adds one and every decrement takes one off. */
  function Tally(count: int, ops: seq<bool>): int {
    if ops == [] then count else Tally(count, ops[..|ops| - 1]) + (if ops[|ops| - 1] then 1 else -1)
  }

  function Delta(inc: bool): int {
    if inc then 1 else -1
  }

  /** What the table holds after a run of count changes on one entry; changes after its removal do not happen. */
  ghost function Run(m: map<nat, Record>, index: nat, ops: seq<bool>): (r: map<nat, Record>)
    requires index in m ==> |m[index].payload| >= REFS_SIZE
    ensures index in r ==> |r[index].payload| >= REFS_SIZE
  {
    if ops == [] then m
    else
      var before := Run(m, index, ops[..|ops| - 1]);
      if index in before then Recount(before, index, Delta(ops[|ops| - 1])) else before
  }

  /** The tally stays strictly between 0 and the lock value throughout. */
  ghost predicate Within(count: nat, ops: seq<bool>) {
    forall i :: 0 <= i <= |ops| ==> InBounds(count, ops, i)
  }

  ghost predicate InBounds(count: nat, ops: seq<bool>, i: nat)
    requires i <= |ops|
  {
    0 < Tally(count, ops[..i]) < LOCKED_REF
  }

  lemma TallyLast(count: nat, ops: seq<bool>)
    requires ops != []
    ensures Tally(count, ops) == Tally(count, ops[..|ops| - 1]) + Delta(ops[|ops| - 1])
  {
  }

  ghost function Holding(m: map<nat, Record>, index: nat, count: nat): map<nat, Record>
    requires index in m && |m[index].payload| >= REFS_SIZE
  {
    m[index := m[index].(payload := LE(count, 4) + m[index].payload[4..])]
  }

  lemma RecountHolding(m: map<nat, Record>, index: nat, count: nat, delta: int)
    requires index in m && |m[index].payload| >= REFS_SIZE && count <= LOCKED_REF
    ensures Recount(Holding(m, index, count), index, delta) ==
      (var n := Bumped(count, delta); if n == 0 then m - {index} else Holding(m, index, n))
  {
    hide LE, UnLE;
    var h := Holding(m, index, count);
    Widths();
    UnLEofLE(count, 4);
    assert h[index].payload[..4] == LE(count, 4) && h[index].payload[4..] == m[index].payload[4..];
  }

  /** While the tally stays within bounds the stored count is the tally, and nothing else changes. */
  lemma {:induction false} CountIsTally(m: map<nat, Record>, index: nat, count: nat, ops: seq<bool>)
    requires index in m && |m[index].payload| >= REFS_SIZE && UnLE(m[index].payload[..4]) == count
    requires Within(count, ops)
    ensures 0 < Tally(count, ops) < LOCKED_REF && Run(m, index, ops) == Holding(m, index, Tally(count, ops))
  {
    hide LE, UnLE, Recount;
    assert InBounds(count, ops, |ops|) && ops[..|ops|] == ops;
    var p := m[index].payload;
    if ops == [] {
      LEofUnLE(p[..4]);
      assert p == p[..4] + p[4..];
    } else {
      var n := |ops| - 1;
      Shorter(count, ops);
      CountIsTally(m, index, count, ops[..n]);
      RecountHolding(m, index, Tally(count, ops[..n]), Delta(ops[n]));
    }
  }

  lemma Shorter(count: nat, ops: seq<bool>)
    requires Within(count, ops) && ops != []
    ensures Within(count, ops[..|ops| - 1])
    ensures 0 < Tally(count, ops[..|ops| - 1]) < LOCKED_REF && 0 < Tally(count, ops) < LOCKED_REF
  {
    hide Tally;
    var n := |ops| - 1;
    forall i | 0 <= i <= n
      ensures InBounds(count, ops[..n], i)
    {
      SamePart(count, ops, n, i);
    }
    assert InBounds(count, ops, n) && InBounds(count, ops, |ops|);
    assert ops[..|ops|] == ops;
  }

  lemma SamePart(count: nat, ops: seq<bool>, n: nat, i: nat)
    requires i <= n <= |ops|
    ensures InBounds(count, ops[..n], i) == InBounds(count, ops, i)
  {
    hide Tally;
    assert ops[..n][..i] == ops[..i];
  }

  /** The decrement that brings the tally to 0 removes the entry, for good; no other entry is touched. */
  lemma {:induction false} FreedAtZero(m: map<nat, Record>, index: nat, count: nat, ops: seq<bool>, more: seq<bool>)
    requires index in m && |m[index].payload| >= REFS_SIZE && UnLE(m[index].payload[..4]) == count
    requires Within(count, ops) && Tally(count, ops) == 1
    ensures Run(m, index, ops + [false] + more) == m - {index}
  {
    hide LE, UnLE, Recount;
    var run := ops + [false] + more;
    var n := |run| - 1;
    if more == [] {
      assert run[..n] == ops && run[n] == false;
      CountIsTally(m, index, count, ops);
      RecountHolding(m, index, 1, -1);
    } else {
      FreedAtZero(m, index, count, ops, more[..|more| - 1]);
      assert run[..n] == ops + [false] + more[..|more| - 1];
    }
  }

  /** The increment that brings the tally to the lock value locks the count, for good: the entry is never removed. */
  lemma {:induction false} LockedAtMax(m: map<nat, Record>, index: nat, count: nat, ops: seq<bool>, more: seq<bool>)
    requires index in m && |m[index].payload| >= REFS_SIZE && UnLE(m[index].payload[..4]) == count
    requires Within(count, ops) && Tally(count, ops) == LOCKED_REF - 1
    ensures Run(m, index, ops + [true] + more) == Holding(m, index, LOCKED_REF)
  {
    hide LE, UnLE, Recount;
    var run := ops + [true] + more;
    var n := |run| - 1;
    if more == [] {
      assert run[..n] == ops && run[n] == true;
      CountIsTally(m, index, count, ops);
      RecountHolding(m, index, LOCKED_REF - 1, 1);
    } else {
      LockedAtMax(m, index, count, ops, more[..|more| - 1]);
      assert run[..n] == ops + [true] + more[..|more| - 1];
      RecountHolding(m, index, LOCKED_REF, Delta(run[n]));
    }
  }

  /** The tally stays within bounds up to change `i`, which brings it to `bound`. */
  ghost predicate Leaves(count: nat, ops: seq<bool>, i: nat, bound: nat) {
    i < |ops| && Within(count, ops[..i]) && Tally(count, ops[..i + 1]) == bound
  }

  ghost predicate Reaches(count: nat, ops: seq<bool>, bound: nat) {
    exists i: nat :: Leaves(count, ops, i, bound)
  }

  /** Every run stays within bounds, or leaves them at some first change, downwards or upwards. */
  lemma {:induction false} EveryRun(count: nat, ops: seq<bool>)
    requires 0 < count < LOCKED_REF
    ensures Within(count, ops) || Reaches(count, ops, 0) || Reaches(count, ops, LOCKED_REF)
  {
    if ops == [] {
      assert ops[..0] == [] && Tally(count, []) == count;
    } else {
      hide Tally;
      var n := |ops| - 1;
      var front := ops[..n];
      EveryRun(count, front);
      if Within(count, front) {
        OneMore(count, ops);
        assert ops[..n + 1] == ops;
        assert Tally(count, ops) == 0 ==> Leaves(count, ops, n, 0);
        assert Tally(count, ops) == LOCKED_REF ==> Leaves(count, ops, n, LOCKED_REF);
      } else {
        var bound := if Reaches(count, front, 0) then 0 else LOCKED_REF;
        var i: nat :| Leaves(count, front, i, bound);
        assert front[..i] == ops[..i] && front[..i + 1] == ops[..i + 1];
        assert Leaves(count, ops, i, bound);
      }
    }
  }

  /** One change more moves the tally by one, so that it cannot jump over a bound. */
  lemma OneMore(count: nat, ops: seq<bool>)
    requires ops != [] && Within(count, ops[..|ops| - 1])
    ensures 0 <= Tally(count, ops) <= LOCKED_REF
    ensures 0 < Tally(count, ops) < LOCKED_REF ==> Within(count, ops)
  {
    hide Tally;
    var n := |ops| - 1;
    TallyLast(count, ops);
    assert InBounds(count, ops[..n], n) && ops[..n][..n] == ops[..n] && ops[..n + 1] == ops;
    forall i | 0 <= i <= n
      ensures InBounds(count, ops, i)
    {
      SamePart(count, ops, n, i);
    }
  }

  /** A count at the lock value stays there, whatever the run. */
  lemma {:induction false} LockedStays(m: map<nat, Record>, index: nat, ops: seq<bool>)
    requires index in m && |m[index].payload| >= REFS_SIZE && UnLE(m[index].payload[..4]) == LOCKED_REF
    ensures Run(m, index, ops) == m
  {
    hide LE, UnLE, Recount;
    if ops != [] {
      LockedStays(m, index, ops[..|ops| - 1]);
      RecountHolding(m, index, LOCKED_REF, Delta(ops[|ops| - 1]));
      HoldingSame(m, index);
    }
  }

  lemma HoldingSame(m: map<nat, Record>, index: nat)
    requires index in m && |m[index].payload| >= REFS_SIZE
    ensures Holding(m, index, UnLE(m[index].payload[..4])) == m
  {
    hide LE, UnLE;
    var p := m[index].payload;
    LEofUnLE(p[..4]);
    assert p == p[..4] + p[4..];
  }

  /**
   * The outcome of every run of changes. A locked entry stays as it is. Of any other the entry is gone if its tally
   * reached 0 first, it is there with the lock value if it reached that first, and otherwise it is there with its
   * tally. Nothing else changes.
   */
  lemma RunOutcome(m: map<nat, Record>, index: nat, count: nat, ops: seq<bool>)
    requires index in m && |m[index].payload| >= REFS_SIZE && UnLE(m[index].payload[..4]) == count > 0
    ensures count <= LOCKED_REF && (count == LOCKED_REF ==> Run(m, index, ops) == m)
    ensures count < LOCKED_REF && Reaches(count, ops, 0) ==> Run(m, index, ops) == m - {index}
    ensures count < LOCKED_REF && Reaches(count, ops, LOCKED_REF) ==>
      Run(m, index, ops) == Holding(m, index, LOCKED_REF)
    ensures count < LOCKED_REF && !Reaches(count, ops, 0) && !Reaches(count, ops, LOCKED_REF) ==>
      0 < Tally(count, ops) < LOCKED_REF && Run(m, index, ops) == Holding(m, index, Tally(count, ops))
  {
    hide LE, UnLE, Recount, Run, Holding, Tally;
    CountRange(m[index].payload[..4]);
    if count == LOCKED_REF {
      LockedStays(m, index, ops);
    } else {
      EveryRun(count, ops);
      if Reaches(count, ops, 0) {
        var i: nat :| Leaves(count, ops, i, 0);
        Boundary(count, ops, i, 0);
        FreedAtZero(m, index, count, ops[..i], ops[i + 1..]);
      }
      if Reaches(count, ops, LOCKED_REF) {
        var i: nat :| Leaves(count, ops, i, LOCKED_REF);
        Boundary(count, ops, i, LOCKED_REF);
        LockedAtMax(m, index, count, ops[..i], ops[i + 1..]);
      }
      if Within(count, ops) {
        assert InBounds(count, ops, |ops|) && ops[..|ops|] == ops;
        CountIsTally(m, index, count, ops);
      }
    }
  }

  lemma CountRange(b: seq<byte>)
    requires |b| == 4
    ensures UnLE(b) <= LOCKED_REF
  {
    LEofUnLE(b);
    Widths();
  }

  lemma Boundary(count: nat, ops: seq<bool>, i: nat, bound: nat)
    requires Leaves(count, ops, i, bound) && (bound == 0 || bound == LOCKED_REF)
    ensures ops == ops[..i] + [bound != 0] + ops[i + 1..]
    ensures Tally(count, ops[..i]) == if bound == 0 then 1 else LOCKED_REF - 1
  {
    hide Tally;
    TallyLast(count, ops[..i + 1]);
    assert InBounds(count, ops[..i], i) && ops[..i][..i] == ops[..i] && ops[..i + 1][..i] == ops[..i];
  }
}
