/** Strictly sorted entry sequences: the reference meaning of a tree and of a batch of changes. */
module Entries {
  import opened Keys

  datatype Entry = Entry(key: Key, value: Value)

  /** One element of a change set: `None` deletes the key. */
  datatype Change = Change(key: Key, value: Option<Value>)

  ghost predicate Sorted(s: seq<Entry>) {
    forall i, j :: 0 <= i < j < |s| ==> Less(s[i].key, s[j].key)
  }

  ghost predicate Below(s: seq<Entry>, k: Key) {
    forall i :: 0 <= i < |s| ==> Less(s[i].key, k)
  }

  ghost predicate Above(k: Key, s: seq<Entry>) {
    forall i :: 0 <= i < |s| ==> Less(k, s[i].key)
  }

  function Inserted(c: Change): seq<Entry> {
    match c.value
    case Some(v) => [Entry(c.key, v)]
    case None => []
  }

  function Apply(s: seq<Entry>, c: Change): seq<Entry> {
    if s == [] then Inserted(c)
    else if Less(c.key, s[0].key) then Inserted(c) + s
    else if c.key == s[0].key then Inserted(c) + s[1..]
    else [s[0]] + Apply(s[1..], c)
  }

  function ApplyAll(s: seq<Entry>, cs: seq<Change>): seq<Entry> {
    if cs == [] then s else Apply(ApplyAll(s, cs[..|cs| - 1]), cs[|cs| - 1])
  }

  /** A change only touches the stretch between the entries below its key and those above it. */
  lemma {:induction false} ApplyLocal(a: seq<Entry>, m: seq<Entry>, b: seq<Entry>, c: Change)
    requires Below(a, c.key) && Above(c.key, b)
    ensures Apply(a + m + b, c) == a + Apply(m, c) + b
  {
    if a != [] {
      LessAsymmetric(a[0].key, c.key);
      ApplyLocal(a[1..], m, b, c);
      assert (a + m + b)[1..] == a[1..] + m + b;
      assert a + Apply(m, c) + b == [a[0]] + (a[1..] + Apply(m, c) + b);
    } else if m != [] {
      assert a + m + b == m + b;
      if Less(c.key, m[0].key) {
      } else if c.key == m[0].key {
        assert (m + b)[1..] == m[1..] + b;
      } else {
        ApplyLocal([], m[1..], b, c);
        assert (m + b)[1..] == [] + m[1..] + b;
      }
    } else {
      assert a + m + b == b;
    }
  }

  /** Where the key is absent, or is the one entry `m` holds, the change splices its own entry in. */
  lemma ApplySplice(a: seq<Entry>, m: seq<Entry>, b: seq<Entry>, c: Change)
    requires Below(a, c.key) && Above(c.key, b)
    requires m == [] || (|m| == 1 && m[0].key == c.key)
    ensures Apply(a + m + b, c) == a + Inserted(c) + b
  {
    ApplyLocal(a, m, b, c);
    LessIrreflexive(c.key);
    if m != [] {
      assert Apply(m, c) == Inserted(c) + m[1..];
    }
  }

  /** The only keys a change can add is its own. */
  lemma {:induction false} ApplyKeys(s: seq<Entry>, c: Change, i: nat) returns (j: nat)
    requires i < |Apply(s, c)| && Apply(s, c)[i].key != c.key
    ensures j < |s| && s[j] == Apply(s, c)[i]
  {
    if s == [] {
      assert false;
    } else if Less(c.key, s[0].key) {
      j := i - |Inserted(c)|;
    } else if c.key == s[0].key {
      j := i - |Inserted(c)| + 1;
    } else if i == 0 {
      j := 0;
    } else {
      j := ApplyKeys(s[1..], c, i - 1);
      j := j + 1;
    }
  }

  lemma {:induction false} ApplySorted(s: seq<Entry>, c: Change)
    requires Sorted(s)
    ensures Sorted(Apply(s, c))
  {
    if s == [] {
    } else if Less(c.key, s[0].key) {
      forall i | 1 <= i < |s| ensures Less(c.key, s[i].key) {
        LessTransitive(c.key, s[0].key, s[i].key);
      }
    } else if c.key == s[0].key {
    } else {
      LessTotal(c.key, s[0].key);
      ApplySorted(s[1..], c);
      var r := Apply(s[1..], c);
      forall i | 0 <= i < |r| ensures Less(s[0].key, r[i].key) {
        if r[i].key != c.key {
          var j := ApplyKeys(s[1..], c, i);
        }
      }
    }
  }

  lemma {:induction false} ApplyAllSorted(s: seq<Entry>, cs: seq<Change>)
    requires Sorted(s)
    ensures Sorted(ApplyAll(s, cs))
  {
    if cs != [] {
      ApplyAllSorted(s, cs[..|cs| - 1]);
      ApplySorted(ApplyAll(s, cs[..|cs| - 1]), cs[|cs| - 1]);
    }
  }

  /** Of two changes to one key only the later counts. */
  lemma {:induction false} ApplyTwice(s: seq<Entry>, c: Change, d: Change)
    requires Sorted(s) && c.key == d.key
    ensures Apply(Apply(s, c), d) == Apply(s, d)
  {
    LessIrreflexive(c.key);
    if s == [] {
    } else if Less(c.key, s[0].key) {
      assert Apply(s, c)[|Inserted(c)|..] == s;
    } else if c.key == s[0].key {
      if |s| > 1 {
        LessAsymmetric(s[0].key, s[1].key);
      }
      assert Apply(s, c)[|Inserted(c)|..] == s[1..];
    } else {
      ApplyTwice(s[1..], c, d);
      assert Apply(s, c)[1..] == Apply(s[1..], c);
    }
  }

  function MapOf(s: seq<Entry>): map<Key, Value> {
    if s == [] then map[] else MapOf(s[1..])[s[0].key := s[0].value]
  }

  function Update(m: map<Key, Value>, c: Change): map<Key, Value> {
    match c.value
    case Some(v) => m[c.key := v]
    case None => m - {c.key}
  }

  function UpdateAll(m: map<Key, Value>, cs: seq<Change>): map<Key, Value> {
    if cs == [] then m else Update(UpdateAll(m, cs[..|cs| - 1]), cs[|cs| - 1])
  }

  lemma {:induction false} MapOfKeys(s: seq<Entry>, k: Key)
    ensures k in MapOf(s) <==> exists i :: 0 <= i < |s| && s[i].key == k
  {
    if s != [] {
      MapOfKeys(s[1..], k);
      if i: nat :| i < |s| && s[i].key == k {
        assert i == 0 || s[1..][i - 1].key == k;
      }
      if s[0].key == k {
      } else if i: nat :| i < |s[1..]| && s[1..][i].key == k {
        assert s[i + 1].key == k;
      }
    }
  }

  lemma MapOfInserted(c: Change, s: seq<Entry>)
    requires forall i :: 0 <= i < |s| ==> s[i].key != c.key
    ensures MapOf(Inserted(c) + s) == Update(MapOf(s), c)
  {
    MapOfKeys(s, c.key);
    if c.value.Some? {
      assert (Inserted(c) + s)[1..] == s;
    } else {
      assert Inserted(c) + s == s;
    }
  }

  lemma {:induction false} ApplyIsUpdate(s: seq<Entry>, c: Change)
    requires Sorted(s)
    ensures MapOf(Apply(s, c)) == Update(MapOf(s), c)
  {
    hide Less;
    if s == [] {
      MapOfInserted(c, s);
    } else if Less(c.key, s[0].key) {
      forall i | 0 <= i < |s| ensures s[i].key != c.key {
        if i > 0 {
          LessTransitive(c.key, s[0].key, s[i].key);
        }
        LessAsymmetric(c.key, s[i].key);
      }
      MapOfInserted(c, s);
    } else if c.key == s[0].key {
      forall i | 0 <= i < |s[1..]| ensures s[1..][i].key != c.key {
        LessAsymmetric(s[0].key, s[1..][i].key);
      }
      MapOfInserted(c, s[1..]);
    } else {
      ApplyIsUpdate(s[1..], c);
      assert Apply(s, c)[1..] == Apply(s[1..], c);
    }
  }

  /** Applying a batch to the sorted entries is folding it over the map they stand for. */
  lemma {:induction false} ApplyAllIsUpdateAll(s: seq<Entry>, cs: seq<Change>)
    requires Sorted(s)
    ensures MapOf(ApplyAll(s, cs)) == UpdateAll(MapOf(s), cs)
  {
    if cs != [] {
      var front := cs[..|cs| - 1];
      ApplyAllSorted(s, front);
      ApplyAllIsUpdateAll(s, front);
      ApplyIsUpdate(ApplyAll(s, front), cs[|cs| - 1]);
    }
  }

  /** Change `i` is the last one to the key. */
  ghost predicate LastTo(cs: seq<Change>, k: Key, i: nat) {
    i < |cs| && cs[i].key == k && forall j :: i < j < |cs| ==> cs[j].key != k
  }

  /** After a batch a key has the value of the last change to it, or none if that deletes it. */
  lemma {:induction false} LastChangeDecides(m: map<Key, Value>, cs: seq<Change>, k: Key, i: nat)
    requires LastTo(cs, k, i)
    ensures k in UpdateAll(m, cs) <==> cs[i].value.Some?
    ensures cs[i].value.Some? ==> UpdateAll(m, cs)[k] == cs[i].value.value
  {
    var n := |cs| - 1;
    if i < n {
      LastChangeDecides(m, cs[..n], k, i);
      assert cs[n].key != k;
    }
  }

  /** A key without a change is as before. */
  lemma {:induction false} OthersStay(m: map<Key, Value>, cs: seq<Change>, k: Key)
    requires forall i :: 0 <= i < |cs| ==> cs[i].key != k
    ensures k in UpdateAll(m, cs) <==> k in m
    ensures k in m ==> UpdateAll(m, cs)[k] == m[k]
  {
    if cs != [] {
      var n := |cs| - 1;
      OthersStay(m, cs[..n], k);
      assert cs[n].key != k;
    }
  }

  /** A sorted sequence stands for the map of its entries. */
  lemma {:induction false} MapOfSorted(s: seq<Entry>, k: Key, v: Value)
    requires Sorted(s)
    ensures k in MapOf(s) && MapOf(s)[k] == v <==> Entry(k, v) in s
  {
    hide Less;
    if s != [] {
      MapOfSorted(s[1..], k, v);
      assert s == [s[0]] + s[1..];
      if s[0].key == k {
        forall i | 0 < i < |s|
          ensures s[i].key != k
        {
          LessAsymmetric(s[0].key, s[i].key);
        }
      }
    }
  }
}
