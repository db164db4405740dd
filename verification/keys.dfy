/** Byte-string keys in the order the B-tree compares them: lexicographic, a proper prefix first. */
module Keys {
  newtype byte = x: int | 0 <= x < 256

  type Key = seq<byte>
  type Value = seq<byte>

  /** A hashed key, as hash columns use it. */
  type Hash = s: seq<byte> | |s| == 32 witness seq(32, i => 0)

  datatype Option<+T> = None | Some(value: T)

  predicate Less(a: Key, b: Key) {
    b != [] && (a == [] || a[0] < b[0] || (a[0] == b[0] && Less(a[1..], b[1..])))
  }

  /** The keys agree up to here, and the one ends or has the smaller byte. */
  ghost predicate Departs(a: Key, b: Key, i: nat) {
    && i < |b| && i <= |a|
    && (forall j :: 0 <= j < i ==> a[j] == b[j])
    && (i < |a| ==> a[i] < b[i])
  }

  /** The order is that of byte strings: the first byte that differs decides, and a proper prefix comes first. */
  lemma {:induction false} LessIsBytewise(a: Key, b: Key)
    ensures Less(a, b) <==> exists i: nat :: Departs(a, b, i)
  {
    if b == [] || a == [] || a[0] != b[0] {
      assert b != [] && (a == [] || a[0] < b[0]) ==> Departs(a, b, 0);
    } else {
      LessIsBytewise(a[1..], b[1..]);
      if i: nat :| Departs(a[1..], b[1..], i) {
        assert forall j :: 0 < j < i + 1 ==> a[j] == a[1..][j - 1] && b[j] == b[1..][j - 1];
        assert Departs(a, b, i + 1);
      }
      if i: nat :| Departs(a, b, i) {
        assert i > 0 && Departs(a[1..], b[1..], i - 1);
      }
    }
  }

  lemma {:induction false} LessIrreflexive(a: Key)
    ensures !Less(a, a)
  {
    if a != [] {
      LessIrreflexive(a[1..]);
    }
  }

  lemma {:induction false} LessTransitive(a: Key, b: Key, c: Key)
    requires Less(a, b) && Less(b, c)
    ensures Less(a, c)
  {
    if a != [] && a[0] == b[0] == c[0] {
      LessTransitive(a[1..], b[1..], c[1..]);
    }
  }

  lemma {:induction false} LessTotal(a: Key, b: Key)
    ensures Less(a, b) || a == b || Less(b, a)
  {
    if a != [] && b != [] && a[0] == b[0] {
      LessTotal(a[1..], b[1..]);
      assert a == [a[0]] + a[1..] && b == [b[0]] + b[1..];
    }
  }

  /** The three outcomes of a comparison exclude each other. */
  lemma LessAsymmetric(a: Key, b: Key)
    requires Less(a, b)
    ensures !Less(b, a) && a != b
  {
    LessIrreflexive(a);
    if Less(b, a) {
      LessTransitive(a, b, a);
    }
  }
}
